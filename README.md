# Gold-standard corpus tools: annotation input, tokenizer and annotator agreement

This Dafny project models three parts of a Hungarian gold-standard corpus
toolkit. It proves properties of each part.

- **Annotation input** (`AnnotationInput.dfy`, from
  `create_annotation_input_from_eltec.py`). The e-magyar analyser's
  tab-separated output for a paragraph is grouped into sentences. Each
  sentence becomes an `<s>` element of `<token>`s. A token carries:
  - a `join` direction, read from the whitespace around it;
  - its `<form>`;
  - a `<morph>` whose `<ana>` candidates are marked `correct` when they agree
    with the disambiguated lemma and tag. The correct ones come first.
  The elements under `<text>` are then numbered with `xml:id`s. Empty `<p>`
  children are removed from every `<div>`.
- **Whitespace tokenizer** (`Tokenizer.dfy`, from `gold_standard/spacy.py`).
  It turns already-tokenized text into spaCy's `(words, spaces)` pair.
- **Annotator agreement** (`Agreement.dfy`, from `annotator_agreement.py`).
  The calculator works in these steps:
  1. It aligns two annotators' tokens by `xml:id`.
  2. It sets aside tokens that only one annotator has, or whose form was
     edited inconsistently.
  3. It reads off each annotator's chosen analysis.
  4. Per category (lemma, detailed tag, simple tag) it counts matches and
     each annotator's value distribution.
  5. It computes the observed agreement po, the chance agreement pe and
     Cohen's kappa.
  6. It lists every set-aside or disagreeing token in ascending id order.

`Strings.dfy` holds the Python string behaviour these rely on:
`str.split` with one separator and its inverse `join`, string ordering and
`sorted()` over a set of keys, `str(n)` and `str.rstrip()`. `Wrappers.dfy`
holds `Option` and `Result`.

Imperative code stays imperative. Loops become `method`s with invariants.
Each method is proved against a specification function, and lemmas prove
properties of those functions. `self.token_differences` is a field of the
`AnnotatorAgreementCalculator` class. A `<div>` is a `Div` object whose
children are replaced in place. The ids are written into an array. Python
exceptions become `Failure` values:
- the `KeyError` of a token with no analysis marked correct
  (`MissingSelection`);
- the `ZeroDivisionError` when no token is comparable (`NoComparableTokens`);
- the `ZeroDivisionError` when a category's chance agreement is exactly one
  (`ChanceAgreementIsOne`).
Real division is exact (`real`), not floating point.

Where the calculator's documented behaviour and its code differ, the model
follows the code:
- An annotator's answer is the **last** candidate marked correct, not a
  unique one.
- When pe is one, kappa divides by zero instead of being defined as 1.
  `ChanceOneIffUnanimous` shows this happens exactly when both annotators
  chose one and the same value on every token. Two annotators who agree
  perfectly on a category with a single value therefore make the
  calculation fail.
- `list_differences` first walks the answer records (lines 208-212). It
  tests dictionary keys, which are never empty, so it never records
  anything. `ListDifferences` models this pass and proves it leaves the
  differences unchanged. The disagreeing tokens come from
  `calculate_differences` instead.

## Model

| member | source | states |
|---|---|---|
| AnnotationInput.AllJudged | create_annotation_input_from_eltec.py:116-135 | every candidate yields exactly one `<ana>` |
| AnnotationInput.CorrectOnes | create_annotation_input_from_eltec.py:130-132 | every analysis in the correct list is marked correct and has the token's xpos and lemma |
| AnnotationInput.IncorrectOnes | create_annotation_input_from_eltec.py:133-135 | every analysis in the incorrect list is marked incorrect and differs from the token in xpos or lemma |
| AnnotationInput.PartitionPermutes | create_annotation_input_from_eltec.py:114-139 | the correct list followed by the incorrect list is a permutation of all judged candidates |
| AnnotationInput.CorrectOnesEmpty | create_annotation_input_from_eltec.py:116-135 | no candidate is marked correct exactly when none matches the lemma and xpos |
| AnnotationInput.AnalysesPermute | create_annotation_input_from_eltec.py:112-155 | the analyses are a permutation of the judged candidates, or the single fallback when there are none |
| AnnotationInput.AnalysesCorrectFirst | create_annotation_input_from_eltec.py:136-139 | every analysis marked correct precedes every one marked incorrect |
| AnnotationInput.AnalysesMarking | create_annotation_input_from_eltec.py:130-135 | an analysis is marked correct iff its simple tag is xpos and its lemma the token's lemma |
| AnnotationInput.AnalysesOrdered | create_annotation_input_from_eltec.py:112-155 | the analyses are a permutation of the judged candidates, or the single fallback when there are none; every correct one precedes every incorrect one; an analysis is marked correct iff its simple tag is xpos and its lemma the token's lemma |
| AnnotationInput.HasCorrectAnalysis | create_annotation_input_from_eltec.py:112-155 | a token has a correct analysis iff it has no candidates (the fallback is correct) or some candidate matches |
| AnnotationInput.BuildAnalyses | create_annotation_input_from_eltec.py:112-155 | the loop builds exactly `Analyses`: the correct ones in input order, then the incorrect ones in input order, or `(correct, lemma, "", xpos)` when the morph list is empty |
| AnnotationInput.SentenceAttributes | create_annotation_input_from_eltec.py:90-110 | one token per row, with the row's form and analyses and the join from the surrounding whitespace; `<s>` and `<form>` are marked modified="False" and `<morph>` check="False" |
| AnnotationInput.FirstTokenNo | create_annotation_input_from_eltec.py:91-98 | the first token of a sentence always has join "no" |
| AnnotationInput.NoRepeatedJoin | create_annotation_input_from_eltec.py:93-98 | two neighbouring tokens never both join left, nor both right |
| AnnotationInput.SentenceStep | create_annotation_input_from_eltec.py:92-158 | one more row adds one token, built from the previous row's wsafter |
| AnnotationInput.BuildToken | create_annotation_input_from_eltec.py:93-155 | the token built from the whitespace before it and one row |
| AnnotationInput.BuildSentence | create_annotation_input_from_eltec.py:89-159 | the loop, carrying `wsbefore` from row to row (starting at " "), builds exactly `SentenceOf(rows)` |
| AnnotationInput.BuildSentences | create_annotation_input_from_eltec.py:89-159 | one `<s>` per sentence, in order |
| AnnotationInput.Groups | create_annotation_input_from_eltec.py:206-212 | there is always at least one (possibly empty) run being collected |
| AnnotationInput.GroupsNotBlank | create_annotation_input_from_eltec.py:208-209 | no collected run holds a blank line |
| AnnotationInput.UngroupGroups | create_annotation_input_from_eltec.py:206-212 | grouping loses nothing: the runs joined by blank lines give back the lines |
| AnnotationInput.GroupCount | create_annotation_input_from_eltec.py:208-212 | there is one more run than blank lines |
| AnnotationInput.Fields | create_annotation_input_from_eltec.py:209 | one tab-split row per line |
| AnnotationInput.Body | create_annotation_input_from_eltec.py:204-207 | the header line is skipped; the others are stripped |
| AnnotationInput.FieldsAll | create_annotation_input_from_eltec.py:209 | one sentence of rows per run |
| AnnotationInput.SentenceCount | create_annotation_input_from_eltec.py:202-217 | one sentence per blank line after the header, plus one when a non-empty run is left at the end |
| AnnotationInput.AddLine | create_annotation_input_from_eltec.py:207-212 | a non-blank line is split on tabs and added to the current sentence; a blank one yields the current sentence (even an empty one) and starts a new one |
| AnnotationInput.GroupSentences | create_annotation_input_from_eltec.py:202-217 | the generator yields exactly `Sentences(lines)`: header skipped, lines stripped and tab-split, blank lines end sentences, a non-empty leftover is yielded at the end |
| AnnotationInput.CreateXmlId | create_annotation_input_from_eltec.py:170-174 | for each tag name (by default div, p, s, token), element i with that tag gets id `tag[0]` followed by its 1-based rank among elements of its tag; other elements keep their ids |
| AnnotationInput.NumberTag | create_annotation_input_from_eltec.py:173-174 | one tag name's elements are numbered from 1 in document order; nothing else changes |
| AnnotationInput.OccurrencesMonotone | create_annotation_input_from_eltec.py:173 | the counter never decreases along the document |
| AnnotationInput.IdsDistinct | create_annotation_input_from_eltec.py:172-174 | two elements with the same tag, or with tags that start differently, get different ids |
| AnnotationInput.RanksConsecutive | create_annotation_input_from_eltec.py:173 | the numbers of a tag's elements are exactly 1 up to their count |
| AnnotationInput.FilteredSound | create_annotation_input_from_eltec.py:42-46 | no empty `<p>` survives and every survivor was a child |
| AnnotationInput.FilteredComplete | create_annotation_input_from_eltec.py:42-46 | every child that is not an empty `<p>` survives |
| AnnotationInput.FilteredUnchanged | create_annotation_input_from_eltec.py:42-46 | children without empty `<p>`s are left as they are |
| AnnotationInput.WithoutEmptyPSpec | create_annotation_input_from_eltec.py:40-46 | exactly the direct `<p>` children whose text is None are removed: none is left, every other child is kept, nothing new appears, and children without one are unchanged |
| AnnotationInput.WithoutEmptyPIdempotent | create_annotation_input_from_eltec.py:40-46 | removing empty paragraphs a second time removes nothing |
| AnnotationInput.KeptFiltered | create_annotation_input_from_eltec.py:41-46 | dropping the positions of exactly the empty `<p>`s is filtering them out |
| AnnotationInput.KeptLength | create_annotation_input_from_eltec.py:45-46 | dropping k increasing positions leaves k fewer children |
| AnnotationInput.RemoveStep | create_annotation_input_from_eltec.py:45-46 | after the earlier removals, the next empty `<p>` sits at its original position minus the number removed, and removing it there drops exactly that child |
| AnnotationInput.EmptyParagraphs | create_annotation_input_from_eltec.py:41-44 | the increasing, in-range positions of exactly the `<p>` children whose text is None |
| AnnotationInput.Div.constructor | create_annotation_input_from_eltec.py:40 | a div with the given children |
| AnnotationInput.Div.RemoveEmptyParagraphs | create_annotation_input_from_eltec.py:41-46 | in place, the div's children become `WithoutEmptyP` of the old children, keeping order |
| AnnotationInput.RemoveEmptyPTags | create_annotation_input_from_eltec.py:33-47 | every div listed (the same div listed twice included) ends with its empty `<p>` children removed |
| Tokenizer.RenderTokenized | gold_standard/spacy.py:18-30 | the words, each followed by a space where flagged, spell out the pieces joined by spaces |
| Tokenizer.Trimmed | gold_standard/spacy.py:21-30 | after the loop and the trimming of the end, the result is `Tokenized` and has no empty word |
| Tokenizer.Finished | gold_standard/spacy.py:18-30 | the trimmed result is `Tokenized`, has no empty word, and spells out the text |
| Tokenizer.Tokenize | gold_standard/spacy.py:17-32 | the words are the pieces of `text.split(" ")`, with a lone space in place of each empty piece and a final empty piece dropped; a word is followed by a space iff its piece was non-empty and not last; no word is empty; words and spaces render back to exactly `text` |
| Strings.Split | gold_standard/spacy.py:18 | `str.split` with one separator always returns at least one piece |
| Strings.SplitPieces | gold_standard/spacy.py:18 | no piece contains the separator |
| Strings.JoinSplit | gold_standard/spacy.py:18 | joining the pieces with the separator gives back the string |
| Strings.SplitJoin | create_annotation_input_from_eltec.py:209 | splitting pieces joined by a separator they do not contain gives back the pieces |
| Strings.SplitNoSeparator | create_annotation_input_from_eltec.py:209 | a string without the separator splits into itself |
| Strings.BelowIrreflexive | annotator_agreement.py:215 | no string sorts before itself |
| Strings.BelowTransitive | annotator_agreement.py:215 | string order is transitive |
| Strings.BelowTotal | annotator_agreement.py:215 | of two different strings, one sorts before the other |
| Strings.BelowAsymmetric | annotator_agreement.py:215 | string order is asymmetric |
| Strings.Least | annotator_agreement.py:215 | the least key of a non-empty set |
| Strings.SortedKeys | annotator_agreement.py:215 | `sorted(keys)`: strictly ascending, each key exactly once |
| Strings.NatToString | create_annotation_input_from_eltec.py:174 | decimal digits only, at least one, at least two from 10 up, and a leading zero only for 0 |
| Strings.NatToStringInjective | create_annotation_input_from_eltec.py:174 | different numbers render differently |
| Strings.RStrip | create_annotation_input_from_eltec.py:207 | `rstrip()`: a prefix that does not end in whitespace, and only whitespace was removed |
| Agreement.AlignedOf | annotator_agreement.py:53-73 | the entry holds an annotator's token exactly when that annotator has the id |
| Agreement.AlignToken | annotator_agreement.py:52-81 | the entry built for an id, which is set aside iff it is one-sided, only one annotator edited the form, or both edited it to different texts |
| Agreement.AlignmentPartition | annotator_agreement.py:48-81 | comparable and set-aside ids partition all ids, comparable ids are held by both annotators, and one-sided ids are always set aside |
| Agreement.PopAll | annotator_agreement.py:83-84 | popping every recorded key removes exactly those keys |
| Agreement.AnnotatorAgreementCalculator.constructor | annotator_agreement.py:26 | the differences start empty |
| Agreement.AnnotatorAgreementCalculator.CreateTokenObjects | annotator_agreement.py:47-86 | the set-aside ids are added to the differences, and the remaining aligned entries are returned |
| Agreement.ChosenSpec | annotator_agreement.py:98-120 | nothing is chosen iff no candidate is marked correct; otherwise the last one marked correct is chosen |
| Agreement.SelectAnswer | annotator_agreement.py:98-120 | the loop ends with the last candidate marked correct, or nothing |
| Agreement.Judge | annotator_agreement.py:122-126 | a category matches iff the two chosen values are equal |
| Agreement.AnswerMapStep | annotator_agreement.py:96-126 | one more token adds exactly its answer record |
| Agreement.AnnotatorAgreementCalculator.ExtractResults | annotator_agreement.py:95-128 | it succeeds iff every token has a correct analysis on both sides, and then returns every token's answer; otherwise the error names a token lacking one, with the first annotator checked first |
| Agreement.Bump | annotator_agreement.py:151-158 | the value entries stay distinct, and the value is among them afterwards |
| Agreement.BumpCount | annotator_agreement.py:151-158 | counts one more choice of the value by that annotator and changes no other count |
| Agreement.BumpTotal | annotator_agreement.py:151-158 | adds one to that annotator's total only |
| Agreement.BumpOccurring | annotator_agreement.py:151-158 | every listed value keeps a non-zero count |
| Agreement.BumpBoth | annotator_agreement.py:150-158 | one token's pair of choices adds one to each annotator's total |
| Agreement.StepTallies | annotator_agreement.py:142-158 | counting one more token keeps the tally exact: matches, per-value choices of each annotator, and totals |
| Agreement.StepAllTallies | annotator_agreement.py:142-158 | the same for all three categories at once |
| Agreement.EmptyTallies | annotator_agreement.py:136-141 | the empty tallies are exact for no tokens |
| Agreement.AllBalanced | annotator_agreement.py:142-158 | complete tallies count each token once per annotator |
| Agreement.CountCategory | annotator_agreement.py:144-158 | one token and one category: the match or mismatch, then both choices |
| Agreement.AnnotatorAgreementCalculator.CountToken | annotator_agreement.py:143-158 | every category is counted, and the token is recorded as a difference iff some category does not match |
| Agreement.AnnotatorAgreementCalculator.CountAll | annotator_agreement.py:136-158 | the tallies are exact over all answers, and exactly the disagreeing tokens are added to the differences |
| Agreement.ChanceIsProductsOverSquare | annotator_agreement.py:167-182 | pe times N² is the sum over values of a_v·b_v |
| Agreement.ChanceBounds | annotator_agreement.py:167-182 | 0 ≤ pe ≤ 1 |
| Agreement.ChanceOneIffUnanimous | annotator_agreement.py:180-187 | pe is exactly one iff both annotators chose a single common value for every token, the only case in which kappa divides by zero |
| Agreement.UnanimousMeansPerfect | annotator_agreement.py:144-147 | unanimous choices are all matches |
| Agreement.Proportion | annotator_agreement.py:161-164 | po lies in [0, 1] and is one iff every token matches |
| Agreement.KappaBounds | annotator_agreement.py:185-187 | kappa·(1 − pe) = po − pe, kappa ≤ 1, and kappa = 1 iff po = 1 |
| Agreement.AgreementBounds | annotator_agreement.py:161-187 | on an exact tally: po = agree/N in [0, 1], pe in [0, 1), kappa ≤ 1, and kappa = 1 iff every token matches |
| Agreement.Summarize | annotator_agreement.py:161-187 | fails on N = 0, else on the first category (lemma, detailed, simple) with pe = 1, else gives each category's po, pe and kappa |
| Agreement.AnnotatorAgreementCalculator.CalculateDifferences | annotator_agreement.py:136-187 | exact, balanced tallies; the disagreeing tokens recorded; the statistics, or the division by zero |
| Agreement.Report | annotator_agreement.py:214-232 | one entry per difference, in strictly ascending id order, each rendered from its difference |
| Agreement.ReportOfSorted | annotator_agreement.py:215-232 | entries rendered one by one from the sorted keys form the report |
| Agreement.AnnotatorAgreementCalculator.ListDifferences | annotator_agreement.py:203-232 | the pre-pass leaves the differences unchanged, and the report covers every recorded difference exactly once in id order |
| Agreement.ExtractedAnswers | annotator_agreement.py:32-33 | the answers read off the comparable tokens are `Answers(a, b)`, keyed by exactly the comparable ids |
| Agreement.SummarizedStatistics | annotator_agreement.py:34 | successful statistics are those of exact tallies of the comparable tokens, and no category is unanimous |
| Agreement.Compare | annotator_agreement.py:32-33 | on a fresh calculator the differences are exactly the set-aside tokens; it fails iff some comparable token lacks a correct analysis |
| Agreement.Conclude | annotator_agreement.py:34-35 | it fails on no comparable token, or on the first unanimous category in the order lemma, detailed, simple; otherwise it gives the statistics and the report of set-aside plus disagreeing tokens |
| Agreement.Calculate | annotator_agreement.py:25-35 | the whole run: a missing selection iff some comparable token lacks one; no comparable tokens; the first unanimous category in the order lemma, detailed, simple; or per-category statistics of the comparable tokens and the sorted report of all set-aside and disagreeing tokens |

## Left out

- File reading, XML parsing and serialisation (`parse_xml`, `ElementTree`,
  `minidom` pretty-printing) and writing the report file are not modelled.
  Tokens and elements are given as records. The report is a list of entries
  rather than formatted text. Because the `modified` and `correct` flags are
  booleans and the analysis texts are record fields, three exceptions of
  malformed input cannot arise in the model: the `KeyError` for a `<form>`
  without a `modified` attribute (annotator_agreement.py:57, 61, 68), the
  `KeyError` for an `<ana>` without a `correct` attribute (lines 99 and 111),
  and the `IndexError` for an `<ana>` with fewer than three children
  (lines 101-103 and 113-115).
- Console output is not modelled. `Calculate` returns the statistics rather
  than printing them.
- Floating point is not modelled. po, pe and kappa are exact reals, so
  rounding in the sums of `(a/N)*(b/N)` is not captured.
- Python dict and set iteration order is left open. The model chooses ids
  with `:|`. So which missing selection is reported first is proved only up
  to "some token lacking one".
- `parse_user_input` and the command line are not modelled. Neither is the
  `main` of the annotation-input script, `process_one_file`, or the text
  clean-up and quote replacement done before analysis.
- Running the e-magyar pipeline (`build_pipeline`) is not modelled. Its
  output lines are the input of `GroupSentences`.
- `json.loads` of the morph column is not modelled. A row holds the decoded
  candidates.
- Unpacking a tab-split line into the `form, wsafter, morph, lemma, xpos,
  upos, feats, *ner` fields is not modelled. Rows are given already unpacked,
  so the `ValueError` for a line with fewer than seven fields is not
  captured.
- `get_cleaned_teixml` is not modelled. Its soft-hyphen and newline removal
  and the unwrapping of `<hi>` elements are string and tree surgery outside
  the named core.
- `add_change` is not modelled. It appends a `<change>` dated with today's
  date.
- CreateXmlId: the elements under `<text>` are given as a document-order
  list of tag names, so the XPath search itself is not modelled. A tag name
  with path syntax (`a/b`) is not supported, and an empty tag name is
  taken never to name an element.
- RemoveEmptyPTags: each `<div>` is given with its direct children, so
  nesting of divs is not modelled. A `<p>` that opens with a child element
  has `text` None and is removed, as in the code. The list of divs comes
  from the caller.
- Tokenize: the spaCy `Doc` and its vocabulary are not modelled. The result
  is the `(words, spaces)` pair passed to it.
- Strings.Split: its own contract states only that there is at least one
  piece. The absence of the separator in each piece is stated in
  `SplitPieces`, and the round trips in `JoinSplit` and `SplitJoin`.
