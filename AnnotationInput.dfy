/** The construction rules of create_annotation_input_from_eltec.py, which
    turns e-magyar's tab-separated analyses of a novel's paragraphs into the
    `<s>`/`<token>`/`<form>`/`<morph>`/`<ana>` elements the annotators
    correct: grouping the analyser's lines into sentences, building one
    sentence element per group (join direction, candidate analyses marked
    and ordered correct-first), numbering the elements with `xml:id`s, and
    dropping empty paragraphs. Elements are modelled as records; the XML
    tree itself is not. The line numbers in the comments below refer to
    create_annotation_input_from_eltec.py. */
module AnnotationInput {
  import opened Strings
  import opened Wrappers

  // ================================================================ sentences

  /** The `join` attribute of a token: whether it sticks to its left or
      right neighbour. */
  datatype JoinDirection = Left | Right | No

  /** One candidate of the analyser's `morph` column (its JSON already
      decoded). */
  datatype MsdVar = MsdVar(lemmaText: string, readable: string, tag: string)

  /** One analysed token line: form, wsafter, morph, lemma, xpos (the
      columns the construction reads). */
  datatype Row = Row(form: string, wsafter: string, morph: seq<MsdVar>, lemmaText: string, xpos: string)

  /** An `<ana>` element: its `correct` mark and its lemma, detailed and
      simple texts. */
  datatype Ana = Ana(correct: bool, lemmaText: string, detailed: string, simple: string)

  /** A `<token>` element with its `join`, the text and `modified` mark of
      its `<form>`, the `check` mark of its `<morph>` and the `<ana>`
      children of the `<morph>`. */
  datatype Token = Token(join: JoinDirection, form: string, formModified: bool, check: bool, analyses: seq<Ana>)

  /** An `<s>` element: its `modified` mark and its tokens. */
  datatype Sentence = Sentence(modified: bool, tokens: seq<Token>)

  /** Lines 93-98: "left" when the whitespace before the token has length 2
      and after it length 3, "right" for 3 and 2, "no" otherwise. */
  function Direction(before: string, after: string): JoinDirection
  {
    if |before| == 2 && |after| == 3 then Left
    else if |before| == 3 && |after| == 2 then Right
    else No
  }

  /** Line 130: the analyser's candidate agrees with the disambiguated lemma
      and tag. */
  predicate Matches(m: MsdVar, lemmaText: string, xpos: string)
  {
    m.tag == xpos && m.lemmaText == lemmaText
  }

  /** Lines 117-135: the `<ana>` element built for one candidate. */
  function Judged(m: MsdVar, lemmaText: string, xpos: string): Ana
  {
    Ana(Matches(m, lemmaText, xpos), m.lemmaText, m.readable, m.tag)
  }

  /** Every candidate judged, in input order. */
  function AllJudged(morph: seq<MsdVar>, lemmaText: string, xpos: string): (r: seq<Ana>)
    ensures |r| == |morph|
  {
    if |morph| == 0 then []
    else AllJudged(morph[..|morph| - 1], lemmaText, xpos) + [Judged(morph[|morph| - 1], lemmaText, xpos)]
  }

  /** The candidates marked correct, in input order. */
  function CorrectOnes(morph: seq<MsdVar>, lemmaText: string, xpos: string): (r: seq<Ana>)
    ensures forall i :: 0 <= i < |r| ==> r[i].correct && r[i].simple == xpos && r[i].lemmaText == lemmaText
  {
    if |morph| == 0 then []
    else
      var last := morph[|morph| - 1];
      CorrectOnes(morph[..|morph| - 1], lemmaText, xpos) + (if Matches(last, lemmaText, xpos) then [Judged(last, lemmaText, xpos)] else [])
  }

  /** The candidates marked incorrect, in input order. */
  function IncorrectOnes(morph: seq<MsdVar>, lemmaText: string, xpos: string): (r: seq<Ana>)
    ensures forall i :: 0 <= i < |r| ==> !r[i].correct && !(r[i].simple == xpos && r[i].lemmaText == lemmaText)
  {
    if |morph| == 0 then []
    else
      var last := morph[|morph| - 1];
      IncorrectOnes(morph[..|morph| - 1], lemmaText, xpos) + (if Matches(last, lemmaText, xpos) then [] else [Judged(last, lemmaText, xpos)])
  }

  /** Lines 141-155: with no candidates, the single analysis the token gets. */
  function Fallback(lemmaText: string, xpos: string): Ana
  {
    Ana(true, lemmaText, "", xpos)
  }

  /** The `<ana>` children of a token's `<morph>` (lines 112-155). */
  function Analyses(morph: seq<MsdVar>, lemmaText: string, xpos: string): seq<Ana>
  {
    if |morph| == 0 then [Fallback(lemmaText, xpos)]
    else CorrectOnes(morph, lemmaText, xpos) + IncorrectOnes(morph, lemmaText, xpos)
  }

  /** The correct and incorrect candidates together are the judged candidates
      rearranged. */
  lemma {:induction false} PartitionPermutes(morph: seq<MsdVar>, lemmaText: string, xpos: string)
    ensures multiset(CorrectOnes(morph, lemmaText, xpos) + IncorrectOnes(morph, lemmaText, xpos)) == multiset(AllJudged(morph, lemmaText, xpos))
  {
    if |morph| > 0 {
      PartitionPermutes(morph[..|morph| - 1], lemmaText, xpos);
    }
  }

  /** A candidate is among the correct ones exactly when some candidate
      matches. */
  lemma {:induction false} CorrectOnesEmpty(morph: seq<MsdVar>, lemmaText: string, xpos: string)
    ensures |CorrectOnes(morph, lemmaText, xpos)| == 0 <==> forall j :: 0 <= j < |morph| ==> !Matches(morph[j], lemmaText, xpos)
  {
    if |morph| > 0 {
      var init := morph[..|morph| - 1];
      CorrectOnesEmpty(init, lemmaText, xpos);
      assert forall j :: 0 <= j < |init| ==> init[j] == morph[j];
    }
  }

  /** The analyses are the candidates rearranged, or the single fallback. */
  lemma AnalysesPermute(morph: seq<MsdVar>, lemmaText: string, xpos: string)
    ensures |morph| > 0 ==> multiset(Analyses(morph, lemmaText, xpos)) == multiset(AllJudged(morph, lemmaText, xpos))
    ensures |Analyses(morph, lemmaText, xpos)| == if |morph| == 0 then 1 else |morph|
  {
    if |morph| > 0 {
      PartitionPermutes(morph, lemmaText, xpos);
      var r := CorrectOnes(morph, lemmaText, xpos) + IncorrectOnes(morph, lemmaText, xpos);
      assert Analyses(morph, lemmaText, xpos) == r;
      assert |multiset(r)| == |multiset(AllJudged(morph, lemmaText, xpos))|;
    }
  }

  /** Every analysis marked correct precedes every one marked incorrect. */
  lemma AnalysesCorrectFirst(morph: seq<MsdVar>, lemmaText: string, xpos: string)
    ensures forall i, j :: 0 <= i < j < |Analyses(morph, lemmaText, xpos)| && Analyses(morph, lemmaText, xpos)[j].correct
                           ==> Analyses(morph, lemmaText, xpos)[i].correct
  {
    if |morph| > 0 {
      var c: seq<Ana>, w: seq<Ana> := CorrectOnes(morph, lemmaText, xpos), IncorrectOnes(morph, lemmaText, xpos);
      var r := c + w;
      assert Analyses(morph, lemmaText, xpos) == r;
      forall i | 0 <= i < |r| ensures r[i].correct <==> i < |c| {
        if i >= |c| { assert r[i] == w[i - |c|]; }
      }
    }
  }

  /** An analysis is marked correct exactly when its lemma and simple tag are
      the token's lemma and xpos. */
  lemma AnalysesMarking(morph: seq<MsdVar>, lemmaText: string, xpos: string)
    ensures forall i :: 0 <= i < |Analyses(morph, lemmaText, xpos)| ==>
              (Analyses(morph, lemmaText, xpos)[i].correct <==>
               Analyses(morph, lemmaText, xpos)[i].simple == xpos && Analyses(morph, lemmaText, xpos)[i].lemmaText == lemmaText)
  {
    if |morph| > 0 {
      var c: seq<Ana>, w: seq<Ana> := CorrectOnes(morph, lemmaText, xpos), IncorrectOnes(morph, lemmaText, xpos);
      var r := c + w;
      assert Analyses(morph, lemmaText, xpos) == r;
      forall i | 0 <= i < |r| ensures r[i].correct <==> r[i].simple == xpos && r[i].lemmaText == lemmaText {
        if i < |c| { assert r[i] == c[i]; } else { assert r[i] == w[i - |c|]; }
      }
    }
  }

  /** The analyses are the candidates rearranged (or the single fallback),
      every correct one precedes every incorrect one, and an analysis is
      marked correct exactly when its lemma and simple tag are the token's
      lemma and xpos. */
  lemma AnalysesOrdered(morph: seq<MsdVar>, lemmaText: string, xpos: string)
    ensures |morph| > 0 ==> multiset(Analyses(morph, lemmaText, xpos)) == multiset(AllJudged(morph, lemmaText, xpos))
    ensures |Analyses(morph, lemmaText, xpos)| == if |morph| == 0 then 1 else |morph|
    ensures forall i, j :: 0 <= i < j < |Analyses(morph, lemmaText, xpos)| && Analyses(morph, lemmaText, xpos)[j].correct
                           ==> Analyses(morph, lemmaText, xpos)[i].correct
    ensures forall i :: 0 <= i < |Analyses(morph, lemmaText, xpos)| ==>
              (Analyses(morph, lemmaText, xpos)[i].correct <==>
               Analyses(morph, lemmaText, xpos)[i].simple == xpos && Analyses(morph, lemmaText, xpos)[i].lemmaText == lemmaText)
  {
    AnalysesPermute(morph, lemmaText, xpos);
    AnalysesCorrectFirst(morph, lemmaText, xpos);
    AnalysesMarking(morph, lemmaText, xpos);
  }

  /** A token ends up with a correct analysis exactly when it has no
      candidates or one of them matches its lemma and xpos; otherwise the
      annotators have to mark one themselves. */
  lemma HasCorrectAnalysis(morph: seq<MsdVar>, lemmaText: string, xpos: string)
    ensures (exists i :: 0 <= i < |Analyses(morph, lemmaText, xpos)| && Analyses(morph, lemmaText, xpos)[i].correct)
            <==> |morph| == 0 || exists j :: 0 <= j < |morph| && Matches(morph[j], lemmaText, xpos)
  {
    CorrectOnesEmpty(morph, lemmaText, xpos);
    if |morph| > 0 {
      var c: seq<Ana>, w: seq<Ana> := CorrectOnes(morph, lemmaText, xpos), IncorrectOnes(morph, lemmaText, xpos);
      assert Analyses(morph, lemmaText, xpos) == c + w;
      if |c| > 0 {
        assert (c + w)[0].correct;
      } else {
        assert c + w == w;
      }
    } else {
      assert Analyses(morph, lemmaText, xpos)[0].correct;
    }
  }

  /** Lines 112-155: judge each candidate, then put the correct ones first and
      the incorrect ones after them, each group in input order; a token
      without candidates gets the fallback analysis. */
  method BuildAnalyses(morph: seq<MsdVar>, lemmaText: string, xpos: string) returns (anas: seq<Ana>)
    ensures anas == Analyses(morph, lemmaText, xpos)
  {
    if |morph| > 0 {
      var correct: seq<Ana> := [];
      var incorrect: seq<Ana> := [];
      for i := 0 to |morph|
        invariant correct == CorrectOnes(morph[..i], lemmaText, xpos)
        invariant incorrect == IncorrectOnes(morph[..i], lemmaText, xpos)
      {
        assert morph[..i + 1][..i] == morph[..i];
        var msdVar := morph[i];
        if msdVar.tag == xpos && msdVar.lemmaText == lemmaText {
          correct := correct + [Ana(true, msdVar.lemmaText, msdVar.readable, msdVar.tag)];
        } else {
          incorrect := incorrect + [Ana(false, msdVar.lemmaText, msdVar.readable, msdVar.tag)];
        }
      }
      assert morph[..|morph|] == morph;
      anas := correct + incorrect;
    } else {
      anas := [Ana(true, lemmaText, "", xpos)];
    }
  }

  /** The whitespace before row `k`: the previous row's wsafter, or a single
      space for the first row (line 91). */
  function Before(rows: seq<Row>, k: nat): string
    requires k < |rows|
  {
    if k == 0 then " " else rows[k - 1].wsafter
  }

  function TokenOf(before: string, row: Row): Token
  {
    Token(Direction(before, row.wsafter), row.form, false, false, Analyses(row.morph, row.lemmaText, row.xpos))
  }

  /** The `<s>` element built for one sentence's rows. */
  function SentenceOf(rows: seq<Row>): Sentence
  {
    Sentence(false, seq(|rows|, k requires 0 <= k < |rows| => TokenOf(Before(rows, k), rows[k])))
  }

  /** Lines 90-110: a token per row, carrying the row's form and analyses and
      the join taken from the whitespace around it; the `<s>` and every
      `<form>` are marked not modified and every `<morph>` not checked. */
  lemma SentenceAttributes(rows: seq<Row>)
    ensures !SentenceOf(rows).modified && |SentenceOf(rows).tokens| == |rows|
    ensures forall k :: 0 <= k < |rows| ==>
              && SentenceOf(rows).tokens[k].join == Direction(Before(rows, k), rows[k].wsafter)
              && SentenceOf(rows).tokens[k].form == rows[k].form
              && !SentenceOf(rows).tokens[k].formModified && !SentenceOf(rows).tokens[k].check
              && SentenceOf(rows).tokens[k].analyses == Analyses(rows[k].morph, rows[k].lemmaText, rows[k].xpos)
  {
  }

  /** The first token of a sentence never joins. */
  lemma FirstTokenNo(rows: seq<Row>)
    requires |rows| > 0
    ensures SentenceOf(rows).tokens[0].join == No
  {
  }

  /** Two neighbouring tokens never both join to the left, nor both to the
      right: the whitespace between them cannot have length 2 and 3 at once. */
  lemma {:induction false} NoRepeatedJoin(rows: seq<Row>, k: nat)
    requires k + 1 < |rows|
    ensures !(SentenceOf(rows).tokens[k].join == Left && SentenceOf(rows).tokens[k + 1].join == Left)
    ensures !(SentenceOf(rows).tokens[k].join == Right && SentenceOf(rows).tokens[k + 1].join == Right)
  {
    var toks := SentenceOf(rows).tokens;
    var shared := rows[k].wsafter;
    assert toks[k].join == Direction(Before(rows, k), shared);
    assert toks[k + 1].join == Direction(shared, rows[k + 1].wsafter);
  }

  lemma TokenAt(rows: seq<Row>, k: nat)
    requires k < |rows|
    ensures SentenceOf(rows).tokens[k] == TokenOf(Before(rows, k), rows[k])
  {
  }

  lemma BeforePrefix(rows: seq<Row>, j: nat, k: nat)
    requires k < j <= |rows|
    ensures Before(rows[..j], k) == Before(rows, k)
  {
  }

  lemma {:induction false} SentenceStep(rows: seq<Row>, i: nat)
    requires i < |rows|
    ensures SentenceOf(rows[..i + 1]).tokens == SentenceOf(rows[..i]).tokens + [TokenOf(Before(rows, i), rows[i])]
  {
    var a, b := SentenceOf(rows[..i + 1]).tokens, SentenceOf(rows[..i]).tokens + [TokenOf(Before(rows, i), rows[i])];
    forall k | 0 <= k < |a| ensures a[k] == b[k] {
      TokenAt(rows[..i + 1], k);
      BeforePrefix(rows, i + 1, k);
      if k < i {
        TokenAt(rows[..i], k);
        BeforePrefix(rows, i, k);
      }
    }
  }

  /** Lines 93-155, one token: its join direction from the whitespace
      before and after it, its form, and its analyses. */
  method BuildToken(wsbefore: string, row: Row) returns (token: Token)
    ensures token == TokenOf(wsbefore, row)
  {
    var direction;
    if |wsbefore| == 2 && |row.wsafter| == 3 {
      direction := Left;
    } else if |wsbefore| == 3 && |row.wsafter| == 2 {
      direction := Right;
    } else {
      direction := No;
    }
    var anas := BuildAnalyses(row.morph, row.lemmaText, row.xpos);
    token := Token(direction, row.form, false, false, anas);
  }

  /** Lines 89-159, one sentence: a token per row, its join direction taken
      from the previous and current wsafter, its analyses from
      `BuildAnalyses`; sentences and forms are not modified and morphs are
      not checked. */
  method BuildSentence(rows: seq<Row>) returns (s: Sentence)
    ensures s == SentenceOf(rows)
  {
    var tokens: seq<Token> := [];
    var wsbefore := " ";
    for i := 0 to |rows|
      invariant i < |rows| ==> wsbefore == Before(rows, i)
      invariant tokens == SentenceOf(rows[..i]).tokens
    {
      SentenceStep(rows, i);
      var token := BuildToken(wsbefore, rows[i]);
      assert token == TokenOf(Before(rows, i), rows[i]);
      tokens := tokens + [token];
      wsbefore := rows[i].wsafter;
    }
    assert rows[..|rows|] == rows;
    s := Sentence(false, tokens);
  }

  /** `get_stag_from_wtags`: one `<s>` element per sentence, in order. */
  method BuildSentences(sentences: seq<seq<Row>>) returns (elements: seq<Sentence>)
    ensures |elements| == |sentences|
    ensures forall k :: 0 <= k < |sentences| ==> elements[k] == SentenceOf(sentences[k])
  {
    elements := [];
    for i := 0 to |sentences|
      invariant |elements| == i
      invariant forall k :: 0 <= k < i ==> elements[k] == SentenceOf(sentences[k])
    {
      var s := BuildSentence(sentences[i]);
      elements := elements + [s];
    }
  }

  // ================================================================ grouping lines

  /** Lines separated by blank lines, as runs of non-blank lines (see
      `GroupCount`, `GroupsNotBlank` and `UngroupGroups`). */
  function Groups(lines: seq<string>): (r: seq<seq<string>>)
    ensures |r| >= 1
  {
    if |lines| == 0 then [[]]
    else
      var gs := Groups(lines[..|lines| - 1]);
      var x := lines[|lines| - 1];
      if x == "" then gs + [[]]
      else gs[..|gs| - 1] + [gs[|gs| - 1] + [x]]
  }

  /** No run holds a blank line. */
  lemma {:induction false} GroupsNotBlank(lines: seq<string>)
    ensures forall i, j :: 0 <= i < |Groups(lines)| && 0 <= j < |Groups(lines)[i]| ==> Groups(lines)[i][j] != ""
  {
    if |lines| > 0 {
      var gs := Groups(lines[..|lines| - 1]);
      GroupsNotBlank(lines[..|lines| - 1]);
      var r := Groups(lines);
      forall i, j | 0 <= i < |r| && 0 <= j < |r[i]| ensures r[i][j] != "" {
        if i < |gs| - 1 {
          assert r[i] == gs[i];
        } else if i == |gs| - 1 && lines[|lines| - 1] != "" && j < |gs[i]| {
          assert r[i][j] == gs[i][j];
        }
      }
    }
  }

  /** The runs put back together with a blank line between each two. */
  function Ungroup(gs: seq<seq<string>>): seq<string>
    requires |gs| >= 1
  {
    if |gs| == 1 then gs[0] else Ungroup(gs[..|gs| - 1]) + [""] + gs[|gs| - 1]
  }

  lemma UngroupClose(gs: seq<seq<string>>)
    requires |gs| >= 1
    ensures Ungroup(gs + [[]]) == Ungroup(gs) + [""]
  {
    assert (gs + [[]])[..|gs|] == gs;
  }

  lemma UngroupAppend(prefix: seq<seq<string>>, last: seq<string>, x: string)
    ensures Ungroup(prefix + [last + [x]]) == Ungroup(prefix + [last]) + [x]
  {
    var a, b := prefix + [last + [x]], prefix + [last];
    if |prefix| > 0 {
      assert a[..|prefix|] == prefix && b[..|prefix|] == prefix;
      assert Ungroup(a) == Ungroup(prefix) + [""] + (last + [x]);
      assert Ungroup(b) == Ungroup(prefix) + [""] + last;
    }
  }

  lemma {:induction false} UngroupExtend(gs: seq<seq<string>>, x: string)
    requires |gs| >= 1
    ensures Ungroup(gs[..|gs| - 1] + [gs[|gs| - 1] + [x]]) == Ungroup(gs) + [x]
  {
    var k := |gs| - 1;
    assert gs == gs[..k] + [gs[k]];
    UngroupAppend(gs[..k], gs[k], x);
  }

  /** One more line adds itself to the ungrouped runs. */
  lemma {:induction false} UngroupStep(lines: seq<string>)
    requires |lines| > 0
    ensures Ungroup(Groups(lines)) == Ungroup(Groups(lines[..|lines| - 1])) + [lines[|lines| - 1]]
  {
    var gs, x := Groups(lines[..|lines| - 1]), lines[|lines| - 1];
    if x == "" {
      UngroupClose(gs);
    } else {
      UngroupExtend(gs, x);
    }
  }

  /** Grouping loses nothing: the runs and the blank lines between them give
      back the lines. */
  lemma {:induction false} UngroupGroups(lines: seq<string>)
    ensures Ungroup(Groups(lines)) == lines
  {
    if |lines| > 0 {
      var init := lines[..|lines| - 1];
      UngroupGroups(init);
      UngroupStep(lines);
      assert init + [lines[|lines| - 1]] == lines;
    }
  }

  function Blanks(lines: seq<string>): nat
  {
    if |lines| == 0 then 0 else Blanks(lines[..|lines| - 1]) + (if lines[|lines| - 1] == "" then 1 else 0)
  }

  /** Each blank line closes one run. */
  lemma {:induction false} GroupCount(lines: seq<string>)
    ensures |Groups(lines)| == Blanks(lines) + 1
  {
    if |lines| > 0 {
      GroupCount(lines[..|lines| - 1]);
    }
  }

  /** `line.split('\t')` of every line, in order. */
  function Fields(lines: seq<string>): (r: seq<seq<string>>)
    ensures |r| == |lines|
  {
    if |lines| == 0 then [] else Fields(lines[..|lines| - 1]) + [Split(lines[|lines| - 1], '\t')]
  }

  /** The stripped lines after the header among the first `i` lines. */
  function Body(lines: seq<string>, i: nat): (r: seq<string>)
    requires i <= |lines|
    ensures |r| == if i == 0 then 0 else i - 1
  {
    if i <= 1 then [] else Body(lines, i - 1) + [RStrip(lines[i - 1])]
  }

  /** The tab-split lines of every run, in order. */
  function FieldsAll(gs: seq<seq<string>>): (r: seq<seq<seq<string>>>)
    ensures |r| == |gs|
  {
    if |gs| == 0 then [] else FieldsAll(gs[..|gs| - 1]) + [Fields(gs[|gs| - 1])]
  }

  /** The sentences `emagyar_api` yields for the analyser's output `lines`:
      the header line is skipped, each run of non-blank stripped lines ended
      by a blank line is a sentence (possibly empty), and a non-empty run at
      the end is one too. */
  function Sentences(lines: seq<string>): seq<seq<seq<string>>>
  {
    var gs := Groups(Body(lines, |lines|));
    FieldsAll(if |gs[|gs| - 1]| > 0 then gs else gs[..|gs| - 1])
  }

  /** A sentence per blank line after the header, plus one when the last
      line is not blank. */
  lemma SentenceCount(lines: seq<string>)
    ensures |Sentences(lines)| == Blanks(Body(lines, |lines|)) + (if |Groups(Body(lines, |lines|))[|Groups(Body(lines, |lines|))| - 1]| > 0 then 1 else 0)
  {
    GroupCount(Body(lines, |lines|));
  }

  lemma FieldsAllLast(gs: seq<seq<string>>)
    requires |gs| >= 1
    ensures FieldsAll(gs) == FieldsAll(gs[..|gs| - 1]) + [Fields(gs[|gs| - 1])]
  {
  }

  /** After the lines `body`, `sentences` are the sentences yielded so far
      and `sent` the one being collected. */
  ghost predicate GroupedSoFar(body: seq<string>, sentences: seq<seq<seq<string>>>, sent: seq<seq<string>>)
  {
    var gs := Groups(body);
    sentences == FieldsAll(gs[..|gs| - 1]) && sent == Fields(gs[|gs| - 1])
  }

  /** Lines 207-212, one line after the header: a line that is not blank
      once stripped is split on tabs and added to the sentence being
      collected; a blank one yields that sentence and starts a new one. */
  method AddLine(ghost body: seq<string>, sentences: seq<seq<seq<string>>>, sent: seq<seq<string>>, line: string)
    returns (sentences': seq<seq<seq<string>>>, sent': seq<seq<string>>)
    requires GroupedSoFar(body, sentences, sent)
    ensures GroupedSoFar(body + [line], sentences', sent')
  {
    var gs := Groups(body);
    assert (body + [line])[..|body|] == body;
    if |line| > 0 {
      var last := gs[|gs| - 1];
      assert (last + [line])[..|last|] == last;
      assert Groups(body + [line])[..|gs| - 1] == gs[..|gs| - 1];
      sentences', sent' := sentences, sent + [Split(line, '\t')];
    } else {
      FieldsAllLast(gs);
      assert Groups(body + [line])[..|gs|] == gs;
      sentences', sent' := sentences + [sent], [];
    }
  }

  /** Lines 202-217: skip the header line, feed every other line to
      `AddLine`, and yield what is left at the end if anything. */
  method GroupSentences(lines: seq<string>) returns (sentences: seq<seq<seq<string>>>)
    ensures sentences == Sentences(lines)
  {
    sentences := [];
    var sent: seq<seq<string>> := [];
    for i := 0 to |lines|
      invariant GroupedSoFar(Body(lines, i), sentences, sent)
    {
      if i > 0 {
        sentences, sent := AddLine(Body(lines, i), sentences, sent, RStrip(lines[i]));
      }
    }
    FieldsAllLast(Groups(Body(lines, |lines|)));
    if |sent| > 0 {
      sentences := sentences + [sent];
    }
  }

  // ================================================================ ids

  /** How many of the first `n` tags are `t`. */
  function Occurrences(tags: seq<string>, t: string, n: nat): nat
    requires n <= |tags|
  {
    if n == 0 then 0 else Occurrences(tags, t, n - 1) + (if tags[n - 1] == t then 1 else 0)
  }

  /** The 1-based position of element `i` among the elements with its tag. */
  function Rank(tags: seq<string>, i: nat): nat
    requires i < |tags|
  {
    Occurrences(tags, tags[i], i) + 1
  }

  /** Line 174: the tag name's first letter followed by the number. */
  function XmlId(tag: string, n: nat): string
    requires tag != ""
  {
    [tag[0]] + NatToString(n)
  }

  /** Line 171: the default tag names. */
  const DefaultTagNames: seq<string> := ["div", "p", "s", "token"]

  function NamesOf(tagNames: Option<seq<string>>): seq<string>
  {
    if tagNames.Some? then tagNames.value else DefaultTagNames
  }

  /** Lines 170-174. The elements under `<text>` are given in document order
      by their tag names `tags` and their `xml:id` attributes `ids`. For each
      tag name, its elements are numbered from 1 in document order and get
      the id made of the name's first letter and the number; other elements
      keep their ids. */
  method CreateXmlId(tags: seq<string>, ids: array<Option<string>>, tagNames: Option<seq<string>>)
    requires ids.Length == |tags|
    requires forall i :: 0 <= i < |tags| ==> tags[i] != ""
    modifies ids
    ensures forall i :: 0 <= i < ids.Length ==>
              ids[i] == if tags[i] in NamesOf(tagNames) then Some(XmlId(tags[i], Rank(tags, i))) else old(ids[i])
  {
    var names := if tagNames.None? then DefaultTagNames else tagNames.value;
    for n := 0 to |names|
      invariant forall i :: 0 <= i < ids.Length ==>
                  ids[i] == if tags[i] in names[..n] then Some(XmlId(tags[i], Rank(tags, i))) else old(ids[i])
    {
      NumberTag(tags, ids, names[n]);
      assert names[..n + 1] == names[..n] + [names[n]];
    }
  }

  /** Line 173-174 for one tag name: its elements, counted from 1 in document
      order, get their ids; every other element keeps its id. */
  method NumberTag(tags: seq<string>, ids: array<Option<string>>, tagName: string)
    requires ids.Length == |tags|
    requires forall i :: 0 <= i < |tags| ==> tags[i] != ""
    modifies ids
    ensures forall i :: 0 <= i < ids.Length ==>
              ids[i] == if tags[i] == tagName then Some(XmlId(tags[i], Rank(tags, i))) else old(ids[i])
  {
    var tagId := 0;
    for i := 0 to ids.Length
      invariant tagId == Occurrences(tags, tagName, i)
      invariant forall j :: 0 <= j < ids.Length ==>
                  ids[j] == if j < i && tags[j] == tagName then Some(XmlId(tags[j], Rank(tags, j))) else old(ids[j])
    {
      if tags[i] == tagName {
        tagId := tagId + 1;
        ids[i] := Some([tagName[0]] + NatToString(tagId));
      }
    }
  }

  lemma {:induction false} OccurrencesMonotone(tags: seq<string>, t: string, i: nat, j: nat)
    requires i <= j <= |tags|
    ensures Occurrences(tags, t, i) <= Occurrences(tags, t, j)
    decreases j - i
  {
    if i < j {
      OccurrencesMonotone(tags, t, i, j - 1);
    }
  }

  /** Two elements with the same tag get different numbers, so different
      ids; elements whose tag names start differently get different ids as
      well. */
  lemma IdsDistinct(tags: seq<string>, i: nat, j: nat)
    requires i < j < |tags| && tags[i] != "" && tags[j] != ""
    requires tags[i] == tags[j] || tags[i][0] != tags[j][0]
    ensures XmlId(tags[i], Rank(tags, i)) != XmlId(tags[j], Rank(tags, j))
  {
    var x, y := XmlId(tags[i], Rank(tags, i)), XmlId(tags[j], Rank(tags, j));
    if tags[i] == tags[j] {
      OccurrencesMonotone(tags, tags[i], i + 1, j);
      assert Rank(tags, i) < Rank(tags, j);
      if x == y {
        assert x[1..] == NatToString(Rank(tags, i));
        assert y[1..] == NatToString(Rank(tags, j));
        NatToStringInjective(Rank(tags, i), Rank(tags, j));
      }
    } else {
      assert x[0] != y[0];
    }
  }

  /** The numbers of a tag's elements are exactly 1 to their count: each of
      them is some element's rank. */
  lemma {:induction false} RanksConsecutive(tags: seq<string>, t: string, n: nat, k: nat)
    requires n <= |tags|
    requires 1 <= k <= Occurrences(tags, t, n)
    ensures exists i :: 0 <= i < n && tags[i] == t && Rank(tags, i) == k
  {
    if k <= Occurrences(tags, t, n - 1) {
      RanksConsecutive(tags, t, n - 1, k);
    } else {
      assert tags[n - 1] == t && Rank(tags, n - 1) == k;
    }
  }

  // ================================================================ empty paragraphs

  /** A direct child of a `<div>`: its tag name and its text, `None` when it
      has none. */
  datatype Child = Child(tag: string, text: Option<string>)

  /** Line 43: a `<p>` without text. */
  predicate EmptyP(c: Child)
  {
    c.tag == "p" && c.text.None?
  }

  /** The first `n` children without the empty paragraphs, in order. */
  function Filtered(cs: seq<Child>, n: nat): seq<Child>
    requires n <= |cs|
  {
    if n == 0 then [] else Filtered(cs, n - 1) + (if EmptyP(cs[n - 1]) then [] else [cs[n - 1]])
  }

  /** The children without the empty paragraphs, in order. */
  function WithoutEmptyP(cs: seq<Child>): seq<Child>
  {
    Filtered(cs, |cs|)
  }

  lemma {:induction false} FilteredSound(cs: seq<Child>, n: nat)
    requires n <= |cs|
    ensures forall i :: 0 <= i < |Filtered(cs, n)| ==> !EmptyP(Filtered(cs, n)[i]) && Filtered(cs, n)[i] in cs
  {
    if n > 0 {
      FilteredSound(cs, n - 1);
    }
  }

  lemma {:induction false} FilteredComplete(cs: seq<Child>, n: nat)
    requires n <= |cs|
    ensures forall i :: 0 <= i < n && !EmptyP(cs[i]) ==> cs[i] in Filtered(cs, n)
  {
    if n > 0 {
      FilteredComplete(cs, n - 1);
    }
  }

  lemma {:induction false} FilteredUnchanged(cs: seq<Child>, n: nat)
    requires n <= |cs|
    requires forall i :: 0 <= i < n ==> !EmptyP(cs[i])
    ensures Filtered(cs, n) == cs[..n]
  {
    if n > 0 {
      FilteredUnchanged(cs, n - 1);
      assert cs[..n] == cs[..n - 1] + [cs[n - 1]];
    }
  }

  /** What is removed is exactly the empty paragraphs: none is left, every
      other child is kept, nothing new appears, and children without empty
      paragraphs are left as they are. */
  lemma WithoutEmptyPSpec(cs: seq<Child>)
    ensures forall i :: 0 <= i < |WithoutEmptyP(cs)| ==> !EmptyP(WithoutEmptyP(cs)[i]) && WithoutEmptyP(cs)[i] in cs
    ensures forall c :: c in cs && !EmptyP(c) ==> c in WithoutEmptyP(cs)
    ensures (forall i :: 0 <= i < |cs| ==> !EmptyP(cs[i])) ==> WithoutEmptyP(cs) == cs
  {
    FilteredSound(cs, |cs|);
    FilteredComplete(cs, |cs|);
    if forall i :: 0 <= i < |cs| ==> !EmptyP(cs[i]) {
      FilteredUnchanged(cs, |cs|);
      assert cs[..|cs|] == cs;
    }
  }

  /** Removing empty paragraphs twice removes nothing more. */
  lemma WithoutEmptyPIdempotent(cs: seq<Child>)
    ensures WithoutEmptyP(WithoutEmptyP(cs)) == WithoutEmptyP(cs)
  {
    WithoutEmptyPSpec(cs);
    WithoutEmptyPSpec(WithoutEmptyP(cs));
  }

  /** The first `n` children whose positions are not in `drop`, in order. */
  function Kept(cs: seq<Child>, drop: seq<int>, n: nat): seq<Child>
    requires n <= |cs|
  {
    if n == 0 then [] else Kept(cs, drop, n - 1) + (if n - 1 in drop then [] else [cs[n - 1]])
  }

  predicate Increasing(s: seq<int>)
  {
    forall i, j :: 0 <= i < j < |s| ==> s[i] < s[j]
  }

  lemma {:induction false} KeptSame(cs: seq<Child>, d: seq<int>, e: seq<int>, n: nat)
    requires n <= |cs|
    requires forall i :: 0 <= i < n ==> (i in d <==> i in e)
    ensures Kept(cs, d, n) == Kept(cs, e, n)
  {
    if n > 0 {
      KeptSame(cs, d, e, n - 1);
    }
  }

  lemma {:induction false} KeptNothing(cs: seq<Child>, d: seq<int>, n: nat)
    requires n <= |cs| && |d| == 0
    ensures Kept(cs, d, n) == cs[..n]
  {
    if n > 0 {
      KeptNothing(cs, d, n - 1);
      assert cs[..n] == cs[..n - 1] + [cs[n - 1]];
    }
  }

  lemma {:induction false} KeptFiltered(cs: seq<Child>, d: seq<int>, n: nat)
    requires n <= |cs|
    requires forall i :: 0 <= i < n ==> (i in d <==> EmptyP(cs[i]))
    ensures Kept(cs, d, n) == Filtered(cs, n)
  {
    if n > 0 {
      KeptFiltered(cs, d, n - 1);
    }
  }

  lemma {:induction false} KeptSplit(cs: seq<Child>, d: seq<int>, q: nat, n: nat)
    requires q <= n <= |cs|
    requires forall j :: 0 <= j < |d| ==> d[j] < q
    ensures Kept(cs, d, n) == Kept(cs, d, q) + cs[q..n]
  {
    if q < n {
      KeptSplit(cs, d, q, n - 1);
      assert cs[q..n] == cs[q..n - 1] + [cs[n - 1]];
    }
  }

  lemma {:induction false} KeptLength(cs: seq<Child>, d: seq<int>, n: nat)
    requires n <= |cs|
    requires Increasing(d)
    requires forall j :: 0 <= j < |d| ==> 0 <= d[j] < n
    ensures |Kept(cs, d, n)| == n - |d|
  {
    if n > 0 {
      if n - 1 in d {
        var e := d[..|d| - 1];
        assert d[|d| - 1] == n - 1;
        assert forall i :: 0 <= i < n - 1 ==> (i in d <==> i in e);
        KeptSame(cs, d, e, n - 1);
        KeptLength(cs, e, n - 1);
      } else {
        KeptLength(cs, d, n - 1);
      }
    }
  }

  /** Dropping `q` as well changes nothing among the first `n <= q` children. */
  lemma {:induction false} KeptBelow(cs: seq<Child>, d: seq<int>, q: int, n: nat)
    requires n <= |cs| && n <= q
    ensures Kept(cs, d + [q], n) == Kept(cs, d, n)
  {
    if n > 0 {
      KeptBelow(cs, d, q, n - 1);
      assert n - 1 in d + [q] <==> n - 1 in d;
    }
  }

  /** Dropping `q` as well as `d`, all below it, keeps the children before `q`
      that `d` keeps and every child from `q + 1` up to `n`. */
  lemma {:induction false} KeptAfter(cs: seq<Child>, d: seq<int>, q: nat, n: nat)
    requires forall j :: 0 <= j < |d| ==> d[j] < q
    requires q < n <= |cs|
    ensures Kept(cs, d + [q], n) == Kept(cs, d, q) + cs[q + 1..n]
  {
    var e := d + [q];
    if n == q + 1 {
      assert e[|d|] == q;
      KeptBelow(cs, d, q, q);
    } else {
      KeptAfter(cs, d, q, n - 1);
      assert n - 1 !in e;
      assert cs[q + 1..n] == cs[q + 1..n - 1] + [cs[n - 1]];
    }
  }

  /** Dropping position `q` as well as `d`, all below it, keeps the same
      children before `q` and every child after it. */
  lemma KeptSkip(cs: seq<Child>, d: seq<int>, q: nat)
    requires forall j :: 0 <= j < |d| ==> d[j] < q
    requires q < |cs|
    ensures Kept(cs, d + [q], |cs|) == Kept(cs, d, q) + cs[q + 1..]
  {
    KeptAfter(cs, d, q, |cs|);
    assert cs[q + 1..|cs|] == cs[q + 1..];
  }

  /** Removing the next position `q` from the children kept so far: it sits
      at `q - |d|` among them, and taking it out there is keeping all but
      `d + [q]`. */
  lemma RemoveStep(cs: seq<Child>, d: seq<int>, q: nat)
    requires Increasing(d)
    requires forall j :: 0 <= j < |d| ==> 0 <= d[j] < q
    requires q < |cs|
    ensures 0 <= q - |d| < |Kept(cs, d, |cs|)| && Kept(cs, d, |cs|)[q - |d|] == cs[q]
    ensures Kept(cs, d + [q], |cs|) == Kept(cs, d, |cs|)[..q - |d|] + Kept(cs, d, |cs|)[q - |d| + 1..]
  {
    var front := Kept(cs, d, q);
    KeptLength(cs, d, q);
    KeptSplit(cs, d, q, |cs|);
    assert cs[q..|cs|] == cs[q..];
    KeptSkip(cs, d, q);
    CutAt(front, cs[q..]);
  }

  lemma CutAt(front: seq<Child>, back: seq<Child>)
    requires |back| > 0
    ensures (front + back)[|front|] == back[0]
    ensures (front + back)[..|front|] + (front + back)[|front| + 1..] == front + back[1..]
  {
    assert (front + back)[..|front|] == front;
    assert (front + back)[|front| + 1..] == back[1..];
  }

  /** Lines 41-44: the positions of the empty paragraphs among `children`,
      in document order. */
  method EmptyParagraphs(children: seq<Child>) returns (toRemove: seq<int>)
    ensures Increasing(toRemove)
    ensures forall j :: 0 <= j < |toRemove| ==> 0 <= toRemove[j] < |children|
    ensures forall j :: 0 <= j < |children| ==> (j in toRemove <==> EmptyP(children[j]))
  {
    toRemove := [];
    for i := 0 to |children|
      invariant Increasing(toRemove)
      invariant forall j :: 0 <= j < |toRemove| ==> 0 <= toRemove[j] < i
      invariant forall j :: 0 <= j < i ==> (j in toRemove <==> EmptyP(children[j]))
    {
      if children[i].tag == "p" && children[i].text.None? {
        toRemove := toRemove + [i];
      }
    }
  }

  /** A `<div>` whose direct children are updated in place. */
  class Div {
    var children: seq<Child>

    constructor(children: seq<Child>)
      ensures this.children == children
    {
      this.children := children;
    }

    /** Lines 41-46: collect the empty paragraphs among the direct children,
        then remove each of them; each removal shifts the later ones down by
        one. */
    method RemoveEmptyParagraphs()
      modifies this
      ensures children == WithoutEmptyP(old(children))
    {
      var toRemove := EmptyParagraphs(children);
      ghost var original := children;
      KeptFiltered(original, toRemove, |original|);
      KeptNothing(original, toRemove[..0], |original|);
      assert original[..|original|] == original;
      for k := 0 to |toRemove|
        invariant children == Kept(original, toRemove[..k], |original|)
      {
        RemoveStep(original, toRemove[..k], toRemove[k]);
        assert toRemove[..k + 1] == toRemove[..k] + [toRemove[k]];
        var at := toRemove[k] - k;
        children := children[..at] + children[at + 1..];
      }
      assert toRemove[..|toRemove|] == toRemove;
    }
  }

  /** `remove_empty_p_tags`: every `<div>` under `<text>` loses its empty
      paragraphs. */
  method RemoveEmptyPTags(divs: seq<Div>)
    modifies set d | d in divs
    ensures forall d :: d in divs ==> d.children == WithoutEmptyP(old(d.children))
  {
    ghost var done: set<Div> := {};
    for i := 0 to |divs|
      invariant forall d :: d in divs ==> d.children == if d in done then WithoutEmptyP(old(d.children)) else old(d.children)
      invariant forall k :: 0 <= k < i ==> divs[k] in done
    {
      var div := divs[i];
      div.RemoveEmptyParagraphs();
      WithoutEmptyPIdempotent(old(div.children));
      done := done + {div};
    }
  }
}
