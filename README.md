# Quiz generator, modelled in Dafny

This project models the heuristic quiz engine of the QuizGeneration
application, `client/src/lib/quizGenerator.js`. The engine turns a plain text
into multiple-choice fill-in-the-blank questions and grades a submission.

1. The text is cut into sentences.
2. The text is tokenised into content terms, and the terms are counted.
3. Runs of one to three content tokens become scored candidate phrases.
4. Each question blanks a phrase out of its sentence. It offers the
   prettified phrase among three distractors that differ from it and from
   each other ignoring case, shuffled.
5. A quiz is assembled in three passes:
   - at most one question per sentence;
   - then at most one question per normalised phrase;
   - then keyword fallbacks.
6. Grading counts the answers that equal the stored answer index.

The model has eight modules, one per file:

- `Options` (`option.dfy`): the `Option` type, which stands for JavaScript's
  `null` and `undefined` results.
- `Text` (`text.dfy`): character classes and the string operations. Each
  regular expression of the source is an explicit recursive function. Lemmas
  state which characters it keeps. For the splits at character runs and for
  the run collapsing, they also state where the cuts fall.
- `Sorting` (`sorting.dfy`): the stable descending sort behind
  `Array.prototype.sort((a, b) => key(b) - key(a))`.
- `Tokens` (`tokens.dfy`): these functions of the source:
  - `sanitizeWord`, `stripToken`, `titleCase`, `prettifyOption`;
  - `sentenceSplit`, `tokenize`, `splitSentenceTokens`;
  - `buildFrequency`, a method over a JavaScript `Map` modelled as key
    insertion order plus counts;
  - the frequency-ranked keyword list.
- `Phrases` (`phrases.dfy`): `collectPhrases`, a method whose loops are
  proved against a reference table (`PhraseTable`). The table holds the
  phrase each token contributes.
- `Stem` (`stem.dfy`): these parts of the question text:
  - the blanking loop;
  - the punctuation-spacing fix;
  - `improveStem`.
- `Questions` (`questions.dfy`): these functions of the source:
  - `shuffleArray`, where each random draw is an arbitrary index in `[0, i]`;
  - the two distractor loops;
  - `buildQuestionFromCandidate`;
  - `createKeywordFallback`.
- `Quiz` (`quiz.dfy`): the three passes of `generateQuizFromText`, and
  `gradeSubmission`.

The imperative parts of the source are methods with loop invariants. Each
is proved against a specification, and the promised properties are proved
about that specification:

- `buildFrequency`, against the token counts (`Tokens.Frequencies`);
- the loops of `collectPhrases`, against the reference fold of the phrase
  table (`Phrases.Fold`);
- `shuffleArray`, on an array, against "a permutation of the input";
- the two distractor loops, against the reference offer (`Questions.Offer`);
- the `forEach` of `buildQuestionFromCandidate`, against the blanked token
  list (`Stem.Blanked`);
- the search loop of `createKeywordFallback`, against "the question of the
  first sentence that yields one" (`Questions.FallbackFor`);
- the first two passes, against reference scans (`Quiz.FirstPicks`,
  `Quiz.SecondPicks`). A scan walks the phrases in order and takes a phrase
  exactly when it can be built and its sentence, or its normalised form, was
  not taken before. The passes follow the scan up to the index where they
  stop, and they stop early only once `desiredCount` questions exist;
- the third pass, against its scan state (`Quiz.ThirdPassState`): each
  keyword before the stop index either gave its fallback question, in order,
  or has none;
- `gradeSubmission`, against the score (`Quiz.Score`).

## Model

| member | source | states |
|---|---|---|
| Text.StripOuter | client/src/lib/quizGenerator.js:10 | removing outer non-alphanumerics leaves a string that is empty or starts and ends with a letter or digit |
| Text.Trim | client/src/lib/quizGenerator.js:26 | `trim` leaves a string that is empty or starts and ends with a non-whitespace character |
| Text.LeadDropped | client/src/lib/quizGenerator.js:10 | every character of the leading run that `^[...]+` matches belongs to the class |
| Text.TrailDropped | client/src/lib/quizGenerator.js:10 | every character of the trailing run that `[...]+$` matches belongs to the class |
| Text.TrimBothParts | client/src/lib/quizGenerator.js:10 | what trimming removes consists only of dropped characters, at the two ends: the input is lead + result + trail |
| Text.TrimExact | client/src/lib/quizGenerator.js:26 | trimming a text made of a dropped prefix, a part that starts and ends with kept characters, and a dropped suffix gives exactly that part |
| Text.SplitRuns | client/src/lib/quizGenerator.js:33 | splitting at delimiter runs yields at least one piece, and no piece contains a delimiter |
| Text.SplitRunsFlatten | client/src/lib/quizGenerator.js:33 | the pieces, concatenated in order, are exactly the non-delimiter characters of the input in their order |
| Text.DelimRuns | client/src/lib/quizGenerator.js:33 | the runs a split at `[D]+` cuts out are non-empty and made only of delimiters |
| Text.SplitRunsCuts | client/src/lib/quizGenerator.js:33 | putting the cut-out delimiter runs back between the pieces rebuilds the input, and there is one piece more than runs |
| Text.SplitRunsInnerPieces | client/src/lib/quizGenerator.js:33 | the runs are maximal: only the first and the last piece can be empty |
| Text.JoinSplitOn | client/src/lib/quizGenerator.js:20-22 | `join(' ')` undoes `split(' ')` |
| Text.NonEmpty | client/src/lib/quizGenerator.js:57 | `filter(Boolean)` keeps only non-empty strings, all taken from the input |
| Text.CollapseShape | client/src/lib/quizGenerator.js:118 | after `replace(/\s+/g, ' ')` every whitespace character is a plain space and no two whitespace characters are adjacent |
| Text.RemoveCollapse | client/src/lib/quizGenerator.js:118 | collapsing whitespace changes no non-whitespace character |
| Text.CollapseLeadingRun | client/src/lib/quizGenerator.js:118 | a leading whitespace run becomes exactly one replacement character |
| Text.CollapseJoinsPieces | client/src/lib/quizGenerator.js:118 | `replace(/[D]+/g, c)` equals the pieces of `split(/[D]+/)` joined with `c`: each run becomes exactly one `c` |
| Text.TrimJoinedPieces | client/src/lib/quizGenerator.js:118 | trimming the pieces of a split at maximal runs, joined with a run character, leaves the non-empty pieces joined with it |
| Text.RemoveTrimBoth | client/src/lib/quizGenerator.js:118 | trimming removes only characters of the trimmed class |
| Text.TrimKeeps | client/src/lib/quizGenerator.js:118-119 | trimming cannot remove a non-empty whitespace-free part of the text: the result still contains it |
| Text.ContainsMiddle | client/src/lib/quizGenerator.js:119 | `includes` finds any part of a concatenation |
| Sorting.SortDesc | client/src/lib/quizGenerator.js:105 | the sort is a permutation of its input, with keys in non-increasing order |
| Sorting.SortDescStable | client/src/lib/quizGenerator.js:105 | the sort is stable: elements sharing a key keep their input order |
| Sorting.PermutationKeepsDistinctBy | client/src/lib/quizGenerator.js:105 | rearranging a sequence keeps its elements' keys pairwise distinct |
| Tokens.SanitizeWord | client/src/lib/quizGenerator.js:9-11 | the result is empty or starts and ends alphanumeric, has no upper-case letter, and is the lower-cased stretch of the word after its leading non-alphanumerics |
| Tokens.StripToken | client/src/lib/quizGenerator.js:13-15 | the result starts and ends alphanumeric, and lower-cased it is `sanitizeWord` of the same word |
| Tokens.TitleCase | client/src/lib/quizGenerator.js:17-23 | the length is unchanged, the text is unchanged ignoring case, and the first character is upper-cased |
| Tokens.PrettifyOption | client/src/lib/quizGenerator.js:25-27 | the option has no surrounding whitespace and, ignoring case, is the whitespace-collapsed, trimmed value |
| Tokens.KeepSentences | client/src/lib/quizGenerator.js:34-35 | the trimmed pieces that are kept are sentences: at least 35 characters, trimmed, with no sentence break |
| Tokens.LongPieceIsKept | client/src/lib/quizGenerator.js:34-35 | every piece whose trimmed form has at least 35 characters is kept, as that trimmed form |
| Tokens.KeptSentenceIsLongPiece | client/src/lib/quizGenerator.js:34-35 | every kept sentence is the trimmed form, at least 35 characters long, of one of the pieces |
| Tokens.SentenceSplit | client/src/lib/quizGenerator.js:29-36 | every returned sentence is trimmed, at least `MIN_SENTENCE_LENGTH` (35) long, and free of `.`, `!`, `?` and newline |
| Tokens.SentenceSplitExactly | client/src/lib/quizGenerator.js:29-36 | a string is a sentence of the text exactly when it is the trimmed form, at least 35 characters long, of a piece of the split at sentence breaks |
| Tokens.SentencePiecesInOrder | client/src/lib/quizGenerator.js:30-33 | the pieces the sentences are cut from hold the text's characters in source order, minus the sentence breaks |
| Tokens.ShortTextHasNoSentences | client/src/lib/quizGenerator.js:7 | a text shorter than 35 characters yields no sentence |
| Tokens.ReplaceNonWordChars | client/src/lib/quizGenerator.js:40 | after the replacement only letters, digits, whitespace and `-` remain, and the length is unchanged |
| Tokens.TokenPiecesAreTermChars | client/src/lib/quizGenerator.js:40-41 | after the replacement and the split at whitespace, every piece is made of letters, digits and `-` |
| Tokens.KeepTerms | client/src/lib/quizGenerator.js:42-43 | every kept token is a term: longer than 3, not a stopword, lower-case, alphanumeric at both ends, made of letters, digits and `-` |
| Tokens.TermPieceIsKept | client/src/lib/quizGenerator.js:42-43 | every piece whose sanitised form is non-empty, not a stopword and longer than 3 is kept, as that form |
| Tokens.KeptTermIsPiece | client/src/lib/quizGenerator.js:42-43 | every kept token is the sanitised form of a piece, and is neither a stopword nor 3 characters or shorter |
| Tokens.Tokenize | client/src/lib/quizGenerator.js:38-44 | every token of the text is a term |
| Tokens.TokenizeExactly | client/src/lib/quizGenerator.js:38-44 | a string is a token of the text exactly when it is the sanitised form of a whitespace-separated piece and is neither a stopword nor 3 characters or shorter |
| Tokens.SanitizedTermChars | client/src/lib/quizGenerator.js:42 | sanitising a piece made of letters, digits and `-` keeps it made of them |
| Tokens.SplitSentenceTokens | client/src/lib/quizGenerator.js:54-58 | every token is non-empty and holds no whitespace |
| Tokens.SentenceTokensInOrder | client/src/lib/quizGenerator.js:54-58 | the tokens, concatenated, are the sentence's non-whitespace characters in order |
| Tokens.BuildFrequency | client/src/lib/quizGenerator.js:46-52 | the keys are the distinct tokens in first-seen order, each count is that token's number of occurrences (at least 1), and the counts sum to the number of tokens |
| Tokens.TallySnoc | client/src/lib/quizGenerator.js:49 | one `freq.set` keeps the map equal to the frequency table of the tokens seen so far |
| Tokens.KeywordList | client/src/lib/quizGenerator.js:207-209 | the keyword list is a permutation of the map's keys in non-increasing order of frequency |
| Tokens.KeywordTiesKeepFirstSeenOrder | client/src/lib/quizGenerator.js:207-209 | keywords with equal frequency stay in the map's insertion order |
| Phrases.Weight | client/src/lib/quizGenerator.js:72 | `freq.get(t) \|\| 1` is at least 1 and is the count wherever the term is counted |
| Phrases.SpanScoreAtLeastLength | client/src/lib/quizGenerator.js:72-81 | each token adds at least 1 to a phrase's score, so the score is at least the length |
| Phrases.RunLength | client/src/lib/quizGenerator.js:76-83 | the greedy run holds 1 to 3 tokens inside the sentence, all content tokens, and stops only at 3 tokens, at the sentence's end or before a non-content token |
| Phrases.ExtendPhrase | client/src/lib/quizGenerator.js:71-83 | the while loop ends with the greedy run length, the run's stripped and cleaned tokens, and their summed weights |
| Phrases.SpanCandidate | client/src/lib/quizGenerator.js:71-97 | the candidate grown from a token is the reference span: its run, joined normalised parts, trimmed joined phrase and summed score |
| Phrases.TokenPhrase | client/src/lib/quizGenerator.js:67-96 | one iteration of the token loop produces exactly the phrase the reference table gives that token, or none |
| Phrases.CandidateShape | client/src/lib/quizGenerator.js:67-97 | every candidate spans 1 to 3 content tokens inside its sentence, as a maximal run, with score at least its length and a phrase of at least 4 characters |
| Phrases.RecordPhrase | client/src/lib/quizGenerator.js:89-101 | offering a candidate to `phraseMap` is the reference update: a new key is appended, an existing key is replaced only on a strictly higher score |
| Phrases.CollectSentence | client/src/lib/quizGenerator.js:63-103 | after one sentence the map is the reference fold of every phrase offered so far, that sentence's in token order |
| Phrases.FoldOrder | client/src/lib/quizGenerator.js:99-100 | the map's keys are the normalised phrases in the order they were first met |
| Phrases.FoldEntries | client/src/lib/quizGenerator.js:99-100 | each entry is one of the offered phrases, filed under its own normalised form |
| Phrases.FoldMaximal | client/src/lib/quizGenerator.js:99-100 | every offered phrase has an entry under its normalised form scoring at least as high |
| Phrases.FoldFirstMaximal | client/src/lib/quizGenerator.js:99-100 | ties keep the first: the entry of a key is the first offered phrase of that key that no earlier phrase of the key outscores |
| Phrases.OfferedMembers | client/src/lib/quizGenerator.js:63-102 | the phrases offered to the map are exactly the phrases of the reference table |
| Phrases.CollectedPhrasesShape | client/src/lib/quizGenerator.js:60-106 | the returned phrases are table phrases, one per normalised form, in non-increasing score order, and every table phrase is matched by a returned phrase of its normalised form scoring at least as high |
| Phrases.CollectedPhrasesTies | client/src/lib/quizGenerator.js:99-105 | each returned phrase is the first highest-scoring table phrase of its normalised form, and phrases of equal score keep the order their forms were first met |
| Phrases.CollectPhrases | client/src/lib/quizGenerator.js:60-106 | the loops compute the reference result; every result is a table phrase, normalised forms are pairwise distinct, scores are non-increasing, and every table phrase is matched by an entry of its normalised form scoring at least as high |
| Questions.Shuffle | client/src/lib/quizGenerator.js:108-115 | the shuffled list is a permutation of the input: same length, same multiset |
| Questions.FindIndex | client/src/lib/quizGenerator.js:168 | `findIndex` returns the first matching index, and -1 exactly when nothing matches |
| Questions.Offer | client/src/lib/quizGenerator.js:145-163 | a distractor loop extends the list it is given, stops at 3, keeps the distractors non-empty and distinct from the answer and from each other ignoring case, and ends short of 3 only when every usable option was already taken |
| Questions.OfferDrawsInOrder | client/src/lib/quizGenerator.js:146-161 | what a distractor loop adds are options it was offered, in the order offered |
| Questions.OfferAppend | client/src/lib/quizGenerator.js:146-161 | the loop over a list of options in two parts equals the loop over the first part followed by the loop, from where it stopped, over the second |
| Questions.OfferPrefixes | client/src/lib/quizGenerator.js:146-161 | the distractors found after any first part of the options are a prefix of the final distractors |
| Questions.OfferTakesFirstUsable | client/src/lib/quizGenerator.js:146-161 | the loop takes the first usable options: every non-empty option unlike the answer that is met while fewer than 3 distractors are held ends up among the distractors, ignoring case |
| Questions.PhraseOptionsMembers | client/src/lib/quizGenerator.js:146-148 | every phrase option is `prettifyOption` of a phrase whose normalised form differs from the candidate's |
| Questions.Distractors | client/src/lib/quizGenerator.js:145-165 | at most 3 distractors, non-empty, unlike the answer and pairwise unlike ignoring case |
| Questions.DistractorsDrawn | client/src/lib/quizGenerator.js:145-163 | the distractors are phrase options in phrase order followed by title-cased keywords in keyword order, and keywords are drawn only when the phrases gave fewer than 3 |
| Questions.KeywordOptionsMembers | client/src/lib/quizGenerator.js:156-157 | every keyword distractor is the title-cased form of a keyword |
| Questions.DistractorsOfferAll | client/src/lib/quizGenerator.js:145-163 | the two loops together are one loop over the phrase options followed by the title-cased keywords |
| Questions.DistractorsTakeFirstUsable | client/src/lib/quizGenerator.js:145-163 | the distractors are the first usable options: every non-empty option unlike the answer, phrase options first and then keywords, met while fewer than 3 distractors are held is among them, ignoring case |
| Questions.FewDistractorsExhaustOptions | client/src/lib/quizGenerator.js:155-165 | fewer than 3 distractors only when every non-empty phrase or keyword option unlike the answer is already among them ignoring case |
| Questions.OfferPhrases | client/src/lib/quizGenerator.js:145-153 | the first distractor loop computes the phrase offer |
| Questions.OfferKeywords | client/src/lib/quizGenerator.js:155-163 | the second distractor loop computes the keyword offer on top of the distractors found |
| Questions.CollectDistractors | client/src/lib/quizGenerator.js:145-163 | both loops together compute `Distractors` |
| Questions.ArrangeOptions | client/src/lib/quizGenerator.js:167-173 | 4 non-empty options, a permutation of the answer and the 3 distractors, pairwise distinct ignoring case, and the answer index is in range and points at the answer; the fallback to 0 is never taken |
| Questions.BuildQuestion | client/src/lib/quizGenerator.js:122-175 | a question is returned exactly when the start is inside the sentence, the answer has at least 2 characters and 3 distractors are found; it is well formed, its text is the stem of the blanked sentence, the option at the answer index is the prettified phrase, and the options are that answer and its distractors |
| Questions.FallbackCandidate | client/src/lib/quizGenerator.js:178-195 | the fallback candidate spans one token, inside the sentence, whose sanitised form is the lower-cased keyword |
| Questions.FallbackAt | client/src/lib/quizGenerator.js:179-198 | one sentence of the fallback loop yields a question exactly when its candidate exists and can be built; the question is then well formed, blanks that candidate and asks for its phrase among its distractors |
| Questions.KeywordFallback | client/src/lib/quizGenerator.js:177-201 | null exactly when no sentence yields a question; otherwise the question is well formed and is the one built in the first sentence that yields one |
| Stem.TrailingPunct | client/src/lib/quizGenerator.js:131 | `/[.,!?;:]+$/` matches the longest suffix of punctuation: the token ends with it, all of it is punctuation, and the character before it is not |
| Stem.Placeholder | client/src/lib/quizGenerator.js:131-132 | the placeholder is `____` followed by the trailing punctuation of the phrase's last token |
| Stem.BlankedAtStart | client/src/lib/quizGenerator.js:130-133 | visiting the phrase's first token appends the placeholder |
| Stem.BlankedOutside | client/src/lib/quizGenerator.js:136-138 | visiting a token outside the phrase appends that token |
| Stem.BlankOut | client/src/lib/quizGenerator.js:129-139 | the blank-token list is the tokens before `start`, the placeholder, then the tokens from `end` on |
| Stem.FixPunctSpacing | client/src/lib/quizGenerator.js:141 | after the fix no whitespace directly precedes punctuation, and no non-whitespace character is lost or added |
| Stem.FixPunctKeepsText | client/src/lib/quizGenerator.js:141 | the fix removes only whitespace |
| Stem.Normalize | client/src/lib/quizGenerator.js:118 | the cleaned stem has only single plain spaces between other characters, and the same non-whitespace characters as the stem |
| Stem.NormalizeJoinsWords | client/src/lib/quizGenerator.js:118 | the cleaned stem is the stem's whitespace-separated words joined with single spaces |
| Stem.ImproveStem | client/src/lib/quizGenerator.js:117-120 | the result is single-spaced, begins with `Fill in the blank: ` when the cleaned stem contains `____`, and otherwise keeps the stem's characters |
| Stem.BlankSurvivesFix | client/src/lib/quizGenerator.js:131-141 | the punctuation fix leaves the placeholder's `____` intact in the joined stem |
| Stem.NormalizeKeepsBlank | client/src/lib/quizGenerator.js:118 | collapsing and trimming whitespace keeps `____` |
| Stem.StemStartsWithLeadIn | client/src/lib/quizGenerator.js:117-141 | because the placeholder always holds `____`, every question text begins with `Fill in the blank: ` |
| Quiz.BuiltFromSnoc | client/src/lib/quizGenerator.js:225-226 | pushing a question together with the phrase it was built from keeps every question paired with its phrase |
| Quiz.Appended | client/src/lib/quizGenerator.js:225-228 | pushing a well-formed question built from an unused phrase keeps the pass invariant, and `usedPhrases` grows by that phrase |
| Quiz.AppendedUnsourced | client/src/lib/quizGenerator.js:253-254 | pushing a well-formed fallback question keeps the pass invariant |
| Quiz.FreshSentence | client/src/lib/quizGenerator.js:218-227 | adding a phrase from an unused sentence keeps the sentences of the first pass distinct |
| Quiz.FreshPhrase | client/src/lib/quizGenerator.js:216-228 | the first pass never meets a normalised phrase it already used, since the phrases are distinct |
| Quiz.PhrasesUsable | client/src/lib/quizGenerator.js:211-219 | every collected phrase points at a sentence and spans at least one token; no sentences means no phrases |
| Quiz.KeyScanExactly | client/src/lib/quizGenerator.js:216-247 | the reference scan picks indices in increasing order, each below where it stops, and picks index `j` exactly when `j` is acceptable, its key is not among the keys used before the pass, and no earlier pick has its key |
| Quiz.FirstPicksExactly | client/src/lib/quizGenerator.js:216-230 | the first pass's reference scan picks phrase `j` exactly when a question can be built from it and no earlier pick comes from its sentence; the picks are in phrase order |
| Quiz.SecondPicksExactly | client/src/lib/quizGenerator.js:232-247 | the second pass's reference scan picks phrase `j` exactly when a question can be built from it, its normalised form was not used by the first pass, and no earlier pick has that form; the picks are in phrase order |
| Quiz.TryPhrase | client/src/lib/quizGenerator.js:219-225 | a question is produced exactly when one can be built from the phrase, and it is well formed and built from and answering that phrase |
| Quiz.SentenceStep | client/src/lib/quizGenerator.js:217-229 | one iteration of the first pass follows the reference scan by one phrase: the phrase is taken exactly when a question can be built from it and its sentence is unused, and the used sentences and normalised forms are those of the phrases taken |
| Quiz.SecondScanStep | client/src/lib/quizGenerator.js:235-245 | one iteration of the second pass follows the reference scan by one phrase, and the used normalised forms are those of the first pass plus those of the phrases taken |
| Quiz.PickedSubsequence | client/src/lib/quizGenerator.js:216-247 | the phrases named by increasing picks form a subsequence of the phrases scanned |
| Quiz.FirstPass | client/src/lib/quizGenerator.js:216-230 | at most `desiredCount` well-formed questions, each built from and answering its phrase; the phrases are exactly the reference scan's picks (`FirstPicks`) up to the index where the pass stops, so every phrase before it that can be built from an unused sentence is taken; the pass stops before the end only once `desiredCount` questions exist; `usedPhrases` holds the forms used |
| Quiz.PhraseStep | client/src/lib/quizGenerator.js:233-245 | one iteration of the second pass appends the question of the current phrase exactly when its normalised form is unused and a question can be built from it, and then records that form as used |
| Quiz.SecondPass | client/src/lib/quizGenerator.js:232-247 | appends to the first pass's questions within `desiredCount`; the new questions' phrases are exactly the reference scan's picks (`SecondPicks`) up to the stop index, so every phrase before it with an unused normalised form that can be built is taken; it stops before the end only once `desiredCount` questions exist |
| Quiz.ThirdPassRead | client/src/lib/quizGenerator.js:249-257 | the third pass's scan state gives, for the keywords seen, the fallback questions taken and the keywords that yield none |
| Quiz.KeywordStep | client/src/lib/quizGenerator.js:250-255 | one iteration of the third pass appends the fallback question of the current keyword when it has one, and records the keyword as passed over otherwise |
| Quiz.ThirdPass | client/src/lib/quizGenerator.js:249-257 | appends, in keyword order, the fallback question of each keyword before the stop index that has one, and every other keyword before it has none; it stops before the end of the keywords only once `desiredCount` questions exist; without sentences it adds nothing |
| Quiz.ThirdPassClose | client/src/lib/quizGenerator.js:249-257 | the questions the third pass appended are the fallback questions of the keywords taken, and every keyword passed over before the stop index has none |
| Quiz.GenerateQuizFromText | client/src/lib/quizGenerator.js:203-263 | the title is `Auto-generated Quiz`; at most `desiredCount` well-formed questions; none without sentences; the phrase questions come first, each built from and answering its phrase; the first pass's phrases are the `FirstPicks` of the text's phrases and the second pass's the `SecondPicks` with the first pass's forms used, each up to its stop index; the rest are keyword fallbacks in keyword order with every keyword passed over yielding none; each pass stops before the end of its list only once `desiredCount` questions exist |
| Quiz.Score | client/src/lib/quizGenerator.js:267-272 | the score never exceeds the number of questions |
| Quiz.GradeSubmission | client/src/lib/quizGenerator.js:265-287 | `total` is the number of questions, `correct` is the score, `correct + incorrect == total`, and there is one detail per question in order, with `userIndex` -1 for a missing answer |
| Quiz.AllCorrectScoresTotal | client/src/lib/quizGenerator.js:268-272 | answering every question with its stored index scores `total` |
| Quiz.NoAnswersScoreZero | client/src/lib/quizGenerator.js:269-272 | with an empty answer map every `userIndex` is -1 and no question with an answer index in range counts as correct |
| Quiz.ScoreCountsOnlyMatches | client/src/lib/quizGenerator.js:271-272 | only answers equal to the stored index count: keeping every correct answer correct never lowers the score |

## Left out

- The React components, the browser and server text extraction, and the HTTP server are not part of this model. They are UI, I/O and foreign libraries.
- `Math.random()` (line 111) is not modelled as a floating-point number. Each draw is an arbitrary index `j` in `[0, i]`, chosen nondeterministically. Every property holds for every sequence of draws.
- `toLowerCase` and `toUpperCase` are modelled for ASCII letters only. Unicode case mapping is not modelled: it can change a string's length.
- JavaScript string lengths count UTF-16 code units; the model counts characters. They differ only for characters outside the Basic Multilingual Plane.
- Quiz.GradeSubmission: the answers are a typed `map<int, int>`. The `Number(answerValue)` coercion of line 270 is not modelled: non-numeric values give `NaN` in JavaScript.
- Quiz.GenerateQuizFromText: `desiredCount` is an integer argument. The default of 10 and non-integer counts are not modelled.
- Quiz.GenerateQuizFromText: the phrase behind each phrase question, the keyword behind each fallback question and the passes' scan trace (picks and stop indexes, `Quiz.Trace`) are ghost results.
- Questions.BuildQuestion: requires a candidate length of at least 1. Every caller in the source passes such a candidate: `Phrases.CandidateShape` proves it for collected phrases, and fallback candidates have length 1. With a length of 0 the source would blank the token at `start` but take the punctuation of the token before it; at `start` 0 it would throw.
- Tokens.TitleCase: characterised by length, case-insensitive equality and the first character. That every later space-separated part starts upper-cased is not stated.
- Stem.FixPunctSpacing: characterised by the absence of whitespace before punctuation and by keeping every other character. Which whitespace is kept is not stated.
- Tokens.SentenceSplit: `Tokens.SentenceSplitExactly` states which strings are sentences, but not their order or how often each occurs. Source order is stated for the pieces the sentences are cut from (`Tokens.SentencePiecesInOrder`).
- Tokens.Tokenize: `Tokens.TokenizeExactly` states which strings are tokens, but not their order or how often each occurs. Occurrence counts are stated for the frequency map (`Tokens.BuildFrequency`) in terms of the token list.
- The `correctAnswer` of a detail is `None` where JavaScript reads `undefined`, for an answer index outside the options.
