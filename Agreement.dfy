/** Inter-annotator agreement between two annotators of the same tokenized
    text: the tokens are aligned by `xml:id`, tokens that are one-sided or
    whose surface form was edited inconsistently are set aside, each
    annotator's chosen analysis is read off, and per category (lemma, detailed
    tag, simple tag) the observed agreement, the chance agreement over the two
    annotators' own value distributions and Cohen's kappa are computed; a
    report lists every set-aside or disagreeing token in ascending id order.
    This is `AnnotatorAgreementCalculator` of annotator_agreement.py; the
    line numbers in the comments below refer to that file. */
module Agreement {
  import opened Wrappers
  import opened Strings

  // ================================================================ input records

  /** The text of an XML element; `None` when the element has no text. */
  type Text = Option<string>

  /** One `<ana>` candidate: `correct` is whether its `correct` attribute is
      "True"; `modified` is its `modified` attribute, when present. */
  datatype Analysis = Analysis(correct: bool, modified: Option<string>, lemmaText: Text, detailed: Text, simple: Text)

  /** The `<form>` child: `modified` is whether its attribute is "True". */
  datatype Form = Form(modified: bool, text: Text)

  /** One `<token>` element of one annotator's file. */
  datatype Token = Token(form: Form, analyses: seq<Analysis>)

  // ================================================================ alignment

  /** What the calculator records under "modified_a"/"modified_b": `False` when
      the form is not flagged, otherwise the form's text, which may be `None`. */
  datatype Mark = Unflagged | Flagged(text: Text)

  /** Python truthiness of a mark: only a flagged form with non-empty text
      counts as an edit. */
  predicate Truthy(m: Mark)
  {
    m.Flagged? && m.text.Some? && m.text.value != ""
  }

  function MarkOf(t: Token): Mark
  {
    if t.form.modified then Flagged(t.form.text) else Unflagged
  }

  /** One entry of `token_objects`: both marks and both annotators' tokens,
      `None` for an annotator who does not have the id. */
  datatype Aligned = Aligned(modifiedA: Mark, modifiedB: Mark, a: Option<Token>, b: Option<Token>)

  function AlignedOf(a: map<string, Token>, b: map<string, Token>, id: string): (x: Aligned)
    ensures x.a.Some? <==> id in a
    ensures x.b.Some? <==> id in b
  {
    Aligned(if id in a then MarkOf(a[id]) else Unflagged,
            if id in b then MarkOf(b[id]) else Unflagged,
            if id in a then Some(a[id]) else None,
            if id in b then Some(b[id]) else None)
  }

  /** A token can be compared when both annotators have it and either neither
      edited its form or both edited it to the same text. */
  predicate Comparable(x: Aligned)
  {
    && x.a.Some? && x.b.Some?
    && Truthy(x.modifiedA) == Truthy(x.modifiedB)
    && (Truthy(x.modifiedA) ==> x.modifiedA.text == x.modifiedB.text)
  }

  function ComparableIds(a: map<string, Token>, b: map<string, Token>): set<string>
  {
    set id | id in a.Keys + b.Keys && Comparable(AlignedOf(a, b, id))
  }

  function ExcludedIds(a: map<string, Token>, b: map<string, Token>): set<string>
  {
    set id | id in a.Keys + b.Keys && !Comparable(AlignedOf(a, b, id))
  }

  /** The aligned entries of the ids `ids`. */
  function AlignedMap(a: map<string, Token>, b: map<string, Token>, ids: set<string>): map<string, Aligned>
  {
    map id | id in ids :: AlignedOf(a, b, id)
  }

  /** The differences recorded for the excluded ids among `ids`. */
  function ExcludedMap(a: map<string, Token>, b: map<string, Token>, ids: set<string>): map<string, Difference>
  {
    map id | id in ids && !Comparable(AlignedOf(a, b, id)) :: DifferingToken(AlignedOf(a, b, id))
  }

  lemma AlignedMapStep(a: map<string, Token>, b: map<string, Token>, ids: set<string>, id: string)
    ensures AlignedMap(a, b, ids + {id}) == AlignedMap(a, b, ids)[id := AlignedOf(a, b, id)]
  {
  }

  lemma ExcludedMapStep(a: map<string, Token>, b: map<string, Token>, ids: set<string>, id: string)
    ensures ExcludedMap(a, b, ids + {id}) ==
              if Comparable(AlignedOf(a, b, id)) then ExcludedMap(a, b, ids)
              else ExcludedMap(a, b, ids)[id := DifferingToken(AlignedOf(a, b, id))]
  {
  }

  lemma MergeUpdate<V>(m: map<string, V>, e: map<string, V>, k: string, d: V)
    ensures (m + e)[k := d] == m + e[k := d]
  {
  }

  /** The aligned entries left once the ids `keys` are popped. */
  lemma RemainingAligned(a: map<string, Token>, b: map<string, Token>, keys: set<string>)
    ensures (map id | id in AlignedMap(a, b, a.Keys + b.Keys) && id !in keys :: AlignedMap(a, b, a.Keys + b.Keys)[id])
            == map id | id in a.Keys + b.Keys && id !in keys :: AlignedOf(a, b, id)
  {
  }

  /** Every id of either annotator is either comparable or excluded, never
      both; a one-sided id is always excluded. */
  lemma AlignmentPartition(a: map<string, Token>, b: map<string, Token>)
    ensures ComparableIds(a, b) + ExcludedIds(a, b) == a.Keys + b.Keys
    ensures ComparableIds(a, b) !! ExcludedIds(a, b)
    ensures forall id :: id in ComparableIds(a, b) ==> id in a && id in b
    ensures forall id :: id in a.Keys + b.Keys && (id !in a || id !in b) ==> id in ExcludedIds(a, b)
  {
  }

  // ================================================================ answers

  datatype Category = Lemma | Detailed | Simple

  /** The categories in the order the answers list them. */
  const Categories: seq<Category> := [Lemma, Detailed, Simple]

  function Index(c: Category): (i: nat)
    ensures i < |Categories| && Categories[i] == c
  {
    match c
    case Lemma => 0
    case Detailed => 1
    case Simple => 2
  }

  /** One record per category, in place of looking records up by name. */
  datatype PerCategory<T> = PerCategory(onLemma: T, onDetailed: T, onSimple: T)
  {
    function Of(c: Category): T
    {
      match c
      case Lemma => onLemma
      case Detailed => onDetailed
      case Simple => onSimple
    }

    function With(c: Category, x: T): (r: PerCategory<T>)
      ensures r.Of(c) == x
      ensures forall d :: d != c ==> r.Of(d) == Of(d)
    {
      match c
      case Lemma => this.(onLemma := x)
      case Detailed => this.(onDetailed := x)
      case Simple => this.(onSimple := x)
    }
  }

  /** One annotator's chosen analysis: lemma, detailed and simple text and
      its `modified` attribute (`None` standing for the default `False`). */
  datatype Selected = Selected(lemmaText: Text, detailed: Text, simple: Text, anaModified: Option<string>)

  function ValueOf(s: Selected, c: Category): Text
  {
    match c
    case Lemma => s.lemmaText
    case Detailed => s.detailed
    case Simple => s.simple
  }

  function SelectedOf(ana: Analysis): Selected
  {
    Selected(ana.lemmaText, ana.detailed, ana.simple, ana.modified)
  }

  /** The analysis an annotator chose: the last candidate marked correct, or
      `None` when no candidate is. */
  function Chosen(anas: seq<Analysis>): Option<Selected>
  {
    if |anas| == 0 then None
    else if anas[|anas| - 1].correct then Some(SelectedOf(anas[|anas| - 1]))
    else Chosen(anas[..|anas| - 1])
  }

  /** Nothing is chosen exactly when no analysis is marked correct; otherwise
      the choice is the last analysis marked correct. */
  lemma {:induction false} ChosenSpec(anas: seq<Analysis>)
    ensures Chosen(anas).None? <==> forall i :: 0 <= i < |anas| ==> !anas[i].correct
    ensures Chosen(anas).Some? ==>
              exists i :: 0 <= i < |anas| && anas[i].correct && Chosen(anas).value == SelectedOf(anas[i])
                          && forall j :: i < j < |anas| ==> !anas[j].correct
  {
    if |anas| > 0 {
      var n := |anas| - 1;
      if anas[n].correct {
        assert anas[n].correct && Chosen(anas).value == SelectedOf(anas[n]);
      } else {
        var init := anas[..n];
        ChosenSpec(init);
        if Chosen(init).Some? {
          var i :| 0 <= i < |init| && init[i].correct && Chosen(init).value == SelectedOf(init[i])
                   && forall j :: i < j < |init| ==> !init[j].correct;
          assert anas[i] == init[i];
          assert forall j :: i < j < |anas| ==> !anas[j].correct;
        } else {
          assert forall i :: 0 <= i < |anas| ==> !anas[i].correct;
        }
      }
    }
  }

  /** Both selections and, per category, whether they match. */
  datatype Answer = Answer(a: Selected, b: Selected, results: PerCategory<bool>)

  datatype Side = A | B

  function SideOf(ans: Answer, side: Side): Selected
  {
    if side == A then ans.a else ans.b
  }

  /** The answer record of one token: a category matches exactly when the two
      selected values are equal. */
  function Judge(sa: Selected, sb: Selected): (r: Answer)
    ensures r.a == sa && r.b == sb
    ensures forall c :: r.results.Of(c) <==> ValueOf(sa, c) == ValueOf(sb, c)
  {
    Answer(sa, sb, PerCategory(sa.lemmaText == sb.lemmaText, sa.detailed == sb.detailed, sa.simple == sb.simple))
  }

  /** The match flags of an answer agree with its values. */
  ghost predicate Consistent(ans: Answer)
  {
    forall c :: ans.results.Of(c) <==> ValueOf(ans.a, c) == ValueOf(ans.b, c)
  }

  predicate Selectable(x: Aligned)
  {
    x.a.Some? && x.b.Some? && Chosen(x.a.value.analyses).Some? && Chosen(x.b.value.analyses).Some?
  }

  function AnswerOf(x: Aligned): Answer
    requires Selectable(x)
  {
    Judge(Chosen(x.a.value.analyses).value, Chosen(x.b.value.analyses).value)
  }

  predicate Disagrees(ans: Answer)
  {
    !ans.results.onLemma || !ans.results.onDetailed || !ans.results.onSimple
  }

  /** Some of the first `k` categories does not match. */
  predicate DisagreesBefore(ans: Answer, k: nat)
  {
    || (k > 0 && !ans.results.onLemma)
    || (k > 1 && !ans.results.onDetailed)
    || (k > 2 && !ans.results.onSimple)
  }

  /** The answer records of the ids `ids`. */
  function AnswerMap(tokenObjects: map<string, Aligned>, ids: set<string>): map<string, Answer>
    requires forall id :: id in ids ==> id in tokenObjects && Selectable(tokenObjects[id])
  {
    map id | id in ids :: AnswerOf(tokenObjects[id])
  }

  lemma AnswerMapStep(tokenObjects: map<string, Aligned>, ids: set<string>, id: string)
    requires forall i :: i in ids + {id} ==> i in tokenObjects && Selectable(tokenObjects[i])
    ensures AnswerMap(tokenObjects, ids + {id}) == AnswerMap(tokenObjects, ids)[id := AnswerOf(tokenObjects[id])]
  {
  }

  /** The differences recorded for the answers among `ids` that do not match
      in some category. */
  function DisagreementMap(results: map<string, Answer>, ids: set<string>): map<string, Difference>
  {
    map id | id in ids && id in results && Disagrees(results[id]) :: DifferingAnalysis(results[id])
  }

  lemma DisagreementMapStep(results: map<string, Answer>, ids: set<string>, id: string)
    requires id in results
    ensures DisagreementMap(results, ids + {id}) ==
              if Disagrees(results[id]) then DisagreementMap(results, ids)[id := DifferingAnalysis(results[id])]
              else DisagreementMap(results, ids)
  {
  }

  // ================================================================ failures

  /** The exceptions the calculation can end in: a `KeyError` when an
      annotator marked no analysis correct, and a `ZeroDivisionError` when no
      token is comparable or a category's chance agreement is exactly one. */
  datatype Failure =
    | MissingSelection(id: string, side: Side)
    | NoComparableTokens
    | ChanceAgreementIsOne(category: Category)

  /** `e` names a token, and the annotator, that has no correct analysis; the
      first annotator is looked up first. */
  ghost predicate MissingFor(tokenObjects: map<string, Aligned>, e: Failure)
  {
    && e.MissingSelection?
    && e.id in tokenObjects
    && tokenObjects[e.id].a.Some? && tokenObjects[e.id].b.Some?
    && (if e.side == A then Chosen(tokenObjects[e.id].a.value.analyses).None?
        else Chosen(tokenObjects[e.id].a.value.analyses).Some? && Chosen(tokenObjects[e.id].b.value.analyses).None?)
  }

  // ================================================================ tallies

  /** One entry of a `*_values` dictionary: how often each annotator chose
      `value`. */
  datatype ValueCount = ValueCount(value: Text, a: nat, b: nat)

  /** Per category: matches, mismatches and the per-value counts in the order
      the values were first seen. */
  datatype Tally = Tally(agree: nat, disagree: nat, values: seq<ValueCount>)

  const EmptyTally := Tally(0, 0, [])

  function Other(side: Side): Side
  {
    if side == A then B else A
  }

  function Get(x: ValueCount, side: Side): nat
  {
    if side == A then x.a else x.b
  }

  function Values(vs: seq<ValueCount>): set<Text>
  {
    if |vs| == 0 then {} else {vs[0].value} + Values(vs[1..])
  }

  /** No value has two entries. */
  predicate Distinct(vs: seq<ValueCount>)
  {
    |vs| == 0 || (vs[0].value !in Values(vs[1..]) && Distinct(vs[1..]))
  }

  /** Every entry was created by a choice, so it counts at least one. */
  predicate Occurring(vs: seq<ValueCount>)
  {
    forall i :: 0 <= i < |vs| ==> vs[i].a + vs[i].b > 0
  }

  /** How often `side` chose `v`: the entry's count, or 0 without an entry. */
  function Count(vs: seq<ValueCount>, v: Text, side: Side): (n: nat)
    ensures v !in Values(vs) ==> n == 0
  {
    if |vs| == 0 then 0
    else if vs[0].value == v then Get(vs[0], side)
    else Count(vs[1..], v, side)
  }

  function Total(vs: seq<ValueCount>, side: Side): nat
  {
    if |vs| == 0 then 0 else Get(vs[0], side) + Total(vs[1..], side)
  }

  /** Lines 152-158: add an entry for a value not seen before, then count one
      more choice of it by `side`. */
  function Bump(vs: seq<ValueCount>, v: Text, side: Side): (r: seq<ValueCount>)
    requires Distinct(vs)
    ensures Distinct(r)
    ensures Values(r) == Values(vs) + {v}
  {
    if |vs| == 0 then
      var r := [if side == A then ValueCount(v, 1, 0) else ValueCount(v, 0, 1)];
      assert r[1..] == [];
      r
    else if vs[0].value == v then
      var r := [if side == A then vs[0].(a := vs[0].a + 1) else vs[0].(b := vs[0].b + 1)] + vs[1..];
      assert r[1..] == vs[1..];
      r
    else
      var rest := Bump(vs[1..], v, side);
      var r := [vs[0]] + rest;
      assert r[1..] == rest;
      r
  }

  /** Bumping keeps every entry a chosen value. */
  lemma {:induction false} BumpOccurring(vs: seq<ValueCount>, v: Text, side: Side)
    requires Distinct(vs) && Occurring(vs)
    ensures Occurring(Bump(vs, v, side))
  {
    if |vs| > 0 {
      var r := Bump(vs, v, side);
      if vs[0].value != v {
        BumpOccurring(vs[1..], v, side);
        assert r[1..] == Bump(vs[1..], v, side);
      } else {
        assert r[1..] == vs[1..];
      }
      forall i | 0 <= i < |r| ensures r[i].a + r[i].b > 0 {
        if i > 0 { assert r[i] == r[1..][i - 1]; }
      }
    }
  }

  /** Bumping adds one to `side`'s total and leaves the other side's alone. */
  lemma {:induction false} BumpTotal(vs: seq<ValueCount>, v: Text, side: Side, s: Side)
    requires Distinct(vs)
    ensures Total(Bump(vs, v, side), s) == Total(vs, s) + (if s == side then 1 else 0)
  {
    if |vs| > 0 && vs[0].value != v {
      BumpTotal(vs[1..], v, side, s);
      assert Bump(vs, v, side)[1..] == Bump(vs[1..], v, side);
    } else if |vs| > 0 {
      assert Bump(vs, v, side)[1..] == vs[1..];
    }
  }

  /** Recording one token's pair of choices keeps the entries distinct and
      chosen, and adds one to each annotator's total. */
  lemma BumpBoth(vs: seq<ValueCount>, va: Text, vb: Text, n: nat)
    requires Distinct(vs) && Occurring(vs) && Total(vs, A) == n && Total(vs, B) == n
    ensures Distinct(Bump(Bump(vs, va, A), vb, B))
    ensures Occurring(Bump(Bump(vs, va, A), vb, B))
    ensures Total(Bump(Bump(vs, va, A), vb, B), A) == n + 1
    ensures Total(Bump(Bump(vs, va, A), vb, B), B) == n + 1
  {
    var once := Bump(vs, va, A);
    BumpOccurring(vs, va, A);
    BumpOccurring(once, vb, B);
    BumpTotal(vs, va, A, A);
    BumpTotal(vs, va, A, B);
    BumpTotal(once, vb, B, A);
    BumpTotal(once, vb, B, B);
  }

  /** Bumping `v` for `side` counts one more choice of `v` by `side` and
      changes no other count. */
  lemma {:induction false} BumpCount(vs: seq<ValueCount>, v: Text, side: Side, w: Text, s: Side)
    requires Distinct(vs)
    ensures Count(Bump(vs, v, side), w, s) == Count(vs, w, s) + (if w == v && s == side then 1 else 0)
  {
    if |vs| > 0 && vs[0].value != v {
      BumpCount(vs[1..], v, side, w, s);
      assert Bump(vs, v, side)[1..] == Bump(vs[1..], v, side);
    }
  }

  /** One token's contribution to one category's tally (lines 144-158). */
  function Step(t: Tally, ans: Answer, c: Category): Tally
    requires Distinct(t.values)
  {
    Tally(if ans.results.Of(c) then t.agree + 1 else t.agree,
          if ans.results.Of(c) then t.disagree else t.disagree + 1,
          Bump(Bump(t.values, ValueOf(ans.a, c), A), ValueOf(ans.b, c), B))
  }

  /** The tokens among `done` for which `side` chose `v` in category `c`. */
  ghost function Chose(results: map<string, Answer>, done: set<string>, c: Category, side: Side, v: Text): set<string>
  {
    set id | id in done && id in results && ValueOf(SideOf(results[id], side), c) == v
  }

  ghost function Agreed(results: map<string, Answer>, done: set<string>, c: Category): set<string>
  {
    set id | id in done && id in results && results[id].results.Of(c)
  }

  /** `t` is the tally of category `c` over the tokens `done`: it counts the
      matches and, per value, each annotator's choices of it, and lists only
      values that were chosen. */
  ghost predicate Tallies(results: map<string, Answer>, done: set<string>, c: Category, t: Tally)
  {
    && done <= results.Keys
    && t.agree == |Agreed(results, done, c)|
    && t.agree + t.disagree == |done|
    && Distinct(t.values) && Occurring(t.values)
    && (forall v, side :: Count(t.values, v, side) == |Chose(results, done, c, side, v)|)
    && Total(t.values, A) == |done| && Total(t.values, B) == |done|
  }

  lemma EmptyTallies(results: map<string, Answer>, c: Category)
    ensures Tallies(results, {}, c, EmptyTally)
  {
    forall v, side ensures Chose(results, {}, c, side, v) == {} { }
  }

  lemma ChoseStep(results: map<string, Answer>, done: set<string>, id: string, c: Category, side: Side, v: Text)
    requires id in results && id !in done
    ensures id !in Chose(results, done, c, side, v)
    ensures Chose(results, done + {id}, c, side, v) ==
              if ValueOf(SideOf(results[id], side), c) == v then Chose(results, done, c, side, v) + {id}
              else Chose(results, done, c, side, v)
  {
  }

  lemma AgreedStep(results: map<string, Answer>, done: set<string>, id: string, c: Category)
    requires id in results && id !in done
    ensures id !in Agreed(results, done, c)
    ensures Agreed(results, done + {id}, c) ==
              if results[id].results.Of(c) then Agreed(results, done, c) + {id} else Agreed(results, done, c)
  {
  }

  /** The per-value counts after one more token. */
  lemma {:induction false} CountsStep(results: map<string, Answer>, done: set<string>, id: string, c: Category, vs: seq<ValueCount>)
    requires id in results && id !in done && Distinct(vs)
    requires forall v, side :: Count(vs, v, side) == |Chose(results, done, c, side, v)|
    ensures forall v, side :: Count(Bump(Bump(vs, ValueOf(results[id].a, c), A), ValueOf(results[id].b, c), B), v, side)
                              == |Chose(results, done + {id}, c, side, v)|
  {
    forall v, side
      ensures Count(Bump(Bump(vs, ValueOf(results[id].a, c), A), ValueOf(results[id].b, c), B), v, side)
              == |Chose(results, done + {id}, c, side, v)|
    {
      CountStep(results, done, id, c, vs, v, side);
    }
  }

  lemma CountStep(results: map<string, Answer>, done: set<string>, id: string, c: Category, vs: seq<ValueCount>, v: Text, side: Side)
    requires id in results && id !in done && Distinct(vs)
    requires Count(vs, v, side) == |Chose(results, done, c, side, v)|
    ensures Count(Bump(Bump(vs, ValueOf(results[id].a, c), A), ValueOf(results[id].b, c), B), v, side)
            == |Chose(results, done + {id}, c, side, v)|
  {
    var va, vb := ValueOf(results[id].a, c), ValueOf(results[id].b, c);
    var once := Bump(vs, va, A);
    BumpCount(vs, va, A, v, side);
    BumpCount(once, vb, B, v, side);
    ChoseStep(results, done, id, c, side, v);
  }

  /** Counting one more token keeps the tally exact. */
  lemma {:induction false} StepTallies(results: map<string, Answer>, done: set<string>, id: string, c: Category, t: Tally)
    requires Tallies(results, done, c, t)
    requires id in results && id !in done
    ensures Tallies(results, done + {id}, c, Step(t, results[id], c))
  {
    var ans := results[id];
    var t' := Step(t, ans, c);
    assert |done + {id}| == |done| + 1;
    AgreedStep(results, done, id, c);
    CountsStep(results, done, id, c, t.values);
    BumpBoth(t.values, ValueOf(ans.a, c), ValueOf(ans.b, c), |done|);
    assert t'.values == Bump(Bump(t.values, ValueOf(ans.a, c), A), ValueOf(ans.b, c), B);
  }

  /** The tallies once the first `k` categories of `ans` are counted. */
  function Counted(t0: PerCategory<Tally>, ans: Answer, k: nat): PerCategory<Tally>
    requires forall c :: Distinct(t0.Of(c).values)
  {
    PerCategory(if 0 < k then Step(t0.Of(Lemma), ans, Lemma) else t0.Of(Lemma),
                if 1 < k then Step(t0.Of(Detailed), ans, Detailed) else t0.Of(Detailed),
                if 2 < k then Step(t0.Of(Simple), ans, Simple) else t0.Of(Simple))
  }

  lemma CountedStep(t0: PerCategory<Tally>, ans: Answer, k: nat)
    requires forall c :: Distinct(t0.Of(c).values)
    requires k < |Categories|
    ensures Counted(t0, ans, k).Of(Categories[k]) == t0.Of(Categories[k])
    ensures Counted(t0, ans, k).With(Categories[k], Step(t0.Of(Categories[k]), ans, Categories[k])) == Counted(t0, ans, k + 1)
  {
  }

  lemma CountedAll(t0: PerCategory<Tally>, ans: Answer)
    requires forall c :: Distinct(t0.Of(c).values)
    ensures forall c :: Counted(t0, ans, |Categories|).Of(c) == Step(t0.Of(c), ans, c)
  {
  }

  /** Counting one more token in every category keeps every tally exact. */
  lemma StepAllTallies(results: map<string, Answer>, done: set<string>, id: string, before: PerCategory<Tally>, after: PerCategory<Tally>)
    requires forall c :: Tallies(results, done, c, before.Of(c))
    requires id in results && id !in done
    requires forall c :: Distinct(before.Of(c).values) && after.Of(c) == Step(before.Of(c), results[id], c)
    ensures forall c :: Tallies(results, done + {id}, c, after.Of(c))
  {
    forall c ensures Tallies(results, done + {id}, c, after.Of(c)) {
      StepTallies(results, done, id, c, before.Of(c));
    }
  }

  /** Complete tallies count every token once per annotator. */
  lemma AllBalanced(results: map<string, Answer>, tallies: PerCategory<Tally>)
    requires forall c :: Tallies(results, results.Keys, c, tallies.Of(c))
    ensures forall c :: Balanced(tallies.Of(c), |results|)
  {
    assert |results.Keys| == |results|;
    forall c ensures Balanced(tallies.Of(c), |results|) {
      assert Agreed(results, results.Keys, c) <= results.Keys;
    }
  }

  // ================================================================ real arithmetic

  lemma ProductAsReal(x: int, y: int)
    ensures (x * y) as real == (x as real) * (y as real)
  {
  }

  lemma SquarePositive(n: nat)
    requires n > 0
    ensures (n * n) as real > 0.0
  {
  }

  lemma TermScaled(x: real, y: real, m: real)
    requires m > 0.0
    ensures (x / m) * (y / m) * (m * m) == x * y
  {
    assert (x / m) * m == x;
    assert (y / m) * m == y;
  }

  lemma TermScaledBy(x: real, y: real, m: real, s: real)
    requires m > 0.0 && s == m * m
    ensures (x / m) * (y / m) * s == x * y
  {
    TermScaled(x, y, m);
  }

  /** One term of pe, scaled by N squared, is the product of the counts. */
  lemma HeadScaled(a: nat, b: nat, n: nat)
    requires n > 0
    ensures (a as real / n as real) * (b as real / n as real) * (n * n) as real == (a * b) as real
  {
    ProductAsReal(n, n);
    ProductAsReal(a, b);
    TermScaledBy(a as real, b as real, n as real, (n * n) as real);
  }

  /** Scaling distributes over one more term of a sum. */
  lemma AddScaled(t: real, c: real, s: real, p: real, q: real)
    requires t * s == p && c * s == q
    ensures (t + c) * s == p + q
  {
    assert (t + c) * s == t * s + c * s;
  }

  /** What `x * y == p` with a positive `y` says about `x`. */
  lemma ScaleCompare(x: real, y: real, p: real)
    requires y > 0.0 && x * y == p
    ensures p <= y ==> x <= 1.0
    ensures p >= 0.0 ==> x >= 0.0
    ensures p == y <==> x == 1.0
  {
    if x > 1.0 { assert (x - 1.0) * y > 0.0; }
    if x < 0.0 { assert (0.0 - x) * y > 0.0; }
  }

  /** A ratio `p / (n * n)` with `p <= n * n` lies in [0, 1], and is one
      exactly when `p == n * n`. */
  lemma RatioBounds(x: real, p: nat, n: nat)
    requires n > 0 && x * (n * n) as real == p as real
    ensures p <= n * n ==> 0.0 <= x <= 1.0
    ensures x == 1.0 <==> p == n * n
  {
    var y := (n * n) as real;
    SquarePositive(n);
    ScaleCompare(x, y, p as real);
  }

  // ================================================================ chance agreement

  /** Sum over the values of the products of the two annotators' counts. */
  function Products(vs: seq<ValueCount>): nat
  {
    if |vs| == 0 then 0 else vs[0].a * vs[0].b + Products(vs[1..])
  }

  /** Lines 167-182: pe is the sum over the values of (a/N)*(b/N). */
  function Chance(vs: seq<ValueCount>, n: nat): real
    requires n > 0
  {
    if |vs| == 0 then 0.0
    else (vs[0].a as real / n as real) * (vs[0].b as real / n as real) + Chance(vs[1..], n)
  }

  lemma {:induction false} ChanceIsProductsOverSquare(vs: seq<ValueCount>, n: nat)
    requires n > 0
    ensures Chance(vs, n) * (n * n) as real == Products(vs) as real
  {
    if |vs| > 0 {
      ChanceIsProductsOverSquare(vs[1..], n);
      var t0 := (vs[0].a as real / n as real) * (vs[0].b as real / n as real);
      HeadScaled(vs[0].a, vs[0].b, n);
      AddScaled(t0, Chance(vs[1..], n), (n * n) as real, (vs[0].a * vs[0].b) as real, Products(vs[1..]) as real);
    }
  }

  lemma {:induction false} EntryAtMostTotal(vs: seq<ValueCount>, i: nat, side: Side)
    requires i < |vs|
    ensures Get(vs[i], side) <= Total(vs, side)
  {
    if i > 0 { EntryAtMostTotal(vs[1..], i - 1, side); }
  }

  lemma {:induction false} CountAt(vs: seq<ValueCount>, i: nat, side: Side)
    requires Distinct(vs) && i < |vs|
    ensures Count(vs, vs[i].value, side) == Get(vs[i], side)
  {
    if i > 0 {
      assert vs[1..][i - 1] == vs[i];
      ValuesContains(vs[1..], i - 1);
      assert vs[0].value != vs[i].value;
      CountAt(vs[1..], i - 1, side);
    }
  }

  lemma {:induction false} ValuesContains(vs: seq<ValueCount>, i: nat)
    requires i < |vs|
    ensures vs[i].value in Values(vs)
  {
    if i > 0 { ValuesContains(vs[1..], i - 1); }
  }

  lemma {:induction false} PositiveEntry(vs: seq<ValueCount>, side: Side) returns (i: nat)
    requires Total(vs, side) > 0
    ensures i < |vs| && Get(vs[i], side) > 0
  {
    if Get(vs[0], side) > 0 {
      i := 0;
    } else {
      var j := PositiveEntry(vs[1..], side);
      i := j + 1;
    }
  }

  lemma MulMono(x: nat, y: nat, bound: nat)
    requires y <= bound
    ensures x * y <= x * bound
    ensures x > 0 && x * y == x * bound ==> y == bound
  {
  }

  lemma MulDistrib(x: int, y: int, k: int)
    ensures (x + y) * k == x * k + y * k
  {
  }

  lemma ProductOfSides(e: ValueCount, side: Side)
    ensures e.a * e.b == Get(e, side) * Get(e, Other(side))
  {
  }

  /** When the other side's counts are at most `bound`, the products sum to at
      most `side`'s total times `bound`, with equality only if every value
      `side` chose was chosen exactly `bound` times by the other side. */
  lemma {:induction false} ProductsBound(vs: seq<ValueCount>, side: Side, bound: nat)
    requires forall i :: 0 <= i < |vs| ==> Get(vs[i], Other(side)) <= bound
    ensures Products(vs) <= Total(vs, side) * bound
    ensures Products(vs) == Total(vs, side) * bound ==>
              forall i :: 0 <= i < |vs| && Get(vs[i], side) > 0 ==> Get(vs[i], Other(side)) == bound
  {
    if |vs| > 0 {
      var rest := vs[1..];
      forall i | 0 <= i < |rest| ensures Get(rest[i], Other(side)) <= bound {
        assert rest[i] == vs[i + 1];
      }
      ProductsBound(rest, side, bound);
      var x, y := Get(vs[0], side), Get(vs[0], Other(side));
      var p, q := Products(rest), Total(rest, side);
      ProductOfSides(vs[0], side);
      assert Products(vs) == x * y + p;
      assert Total(vs, side) == x + q;
      MulDistrib(x, q, bound);
      MulMono(x, y, bound);
      if Products(vs) == Total(vs, side) * bound {
        assert x * y == x * bound && p == q * bound;
        forall i | 0 <= i < |vs| && Get(vs[i], side) > 0
          ensures Get(vs[i], Other(side)) == bound
        {
          if i > 0 { assert vs[i] == rest[i - 1]; }
        }
      }
    }
  }

  /** When only `v` has a non-zero first count, the products sum is the
      product of `v`'s counts. */
  lemma {:induction false} ProductsSingle(vs: seq<ValueCount>, v: Text)
    requires Distinct(vs)
    requires forall i :: 0 <= i < |vs| && vs[i].value != v ==> vs[i].a == 0
    ensures Products(vs) == Count(vs, v, A) * Count(vs, v, B)
  {
    if |vs| > 0 {
      ProductsSingle(vs[1..], v);
      if vs[0].value == v {
        assert Count(vs[1..], v, A) == 0;
      }
    }
  }

  /** Same-size subsets are equal. */
  lemma SubsetSameSize(s: set<string>, t: set<string>)
    requires s <= t && |s| == |t|
    ensures s == t
  {
    assert t == s + (t - s);
    assert |t - s| == 0;

  }

  /** Every value either annotator chose in category `c` is one and the same. */
  ghost predicate Unanimous(results: map<string, Answer>, c: Category)
  {
    forall i, j :: i in results && j in results ==> ValueOf(results[i].a, c) == ValueOf(results[j].b, c)
  }

  /** Every id of `results` for which `side` chose `v`, when `side` chose `v`
      as often as there are ids. */
  lemma AllChose(results: map<string, Answer>, c: Category, side: Side, v: Text)
    requires |Chose(results, results.Keys, c, side, v)| == |results|
    ensures forall id :: id in results ==> ValueOf(SideOf(results[id], side), c) == v
  {
    assert |results.Keys| == |results|;
    SubsetSameSize(Chose(results, results.Keys, c, side, v), results.Keys);
  }

  lemma {:induction false} CountsBounded(vs: seq<ValueCount>, n: nat)
    requires Total(vs, A) == n && Total(vs, B) == n
    ensures forall i :: 0 <= i < |vs| ==> Get(vs[i], A) <= n && Get(vs[i], B) <= n
  {
    forall i | 0 <= i < |vs| ensures Get(vs[i], A) <= n && Get(vs[i], B) <= n {
      EntryAtMostTotal(vs, i, A);
      EntryAtMostTotal(vs, i, B);
    }
  }

  /** A chance agreement of one forces a single value on both sides. */
  lemma {:induction false} ChanceOneMeansUnanimous(results: map<string, Answer>, c: Category, t: Tally)
    requires Tallies(results, results.Keys, c, t) && |results| > 0
    requires Chance(t.values, |results|) == 1.0
    ensures Unanimous(results, c)
  {
    var n := |results|;
    var vs := t.values;
    assert |results.Keys| == n;
    ChanceIsProductsOverSquare(vs, n);
    assert Products(vs) as real == (n * n) as real;
    CountsBounded(vs, n);
    ProductsBound(vs, A, n);
    ProductsBound(vs, B, n);
    var i := PositiveEntry(vs, A);
    assert Get(vs[i], B) == n;
    assert Get(vs[i], A) == n;
    var v := vs[i].value;
    CountAt(vs, i, A);
    CountAt(vs, i, B);
    AllChose(results, c, A, v);
    AllChose(results, c, B, v);
  }

  /** When `side` chose `v` for every id, it chose `v` everywhere and nothing
      else anywhere. */
  lemma OnlyChose(results: map<string, Answer>, c: Category, side: Side, v: Text)
    requires forall id :: id in results ==> ValueOf(SideOf(results[id], side), c) == v
    ensures Chose(results, results.Keys, c, side, v) == results.Keys
    ensures forall w :: w != v ==> Chose(results, results.Keys, c, side, w) == {}
  {
  }

  /** Counts that put everything on one value `v` give products of `n * n`. */
  lemma {:induction false} SingleValueProducts(vs: seq<ValueCount>, v: Text, n: nat)
    requires Distinct(vs)
    requires Count(vs, v, A) == n && Count(vs, v, B) == n
    requires forall w :: w != v ==> Count(vs, w, A) == 0
    ensures Products(vs) == n * n
  {
    forall i | 0 <= i < |vs| && vs[i].value != v ensures vs[i].a == 0 {
      CountAt(vs, i, A);
    }
    ProductsSingle(vs, v);
  }

  /** A single value on both sides gives a chance agreement of one. */
  lemma {:induction false} UnanimousMeansChanceOne(results: map<string, Answer>, c: Category, t: Tally)
    requires Tallies(results, results.Keys, c, t) && |results| > 0
    requires Unanimous(results, c)
    ensures Chance(t.values, |results|) == 1.0
  {
    var n := |results|;
    var vs := t.values;
    assert |results.Keys| == n;
    var id0 :| id0 in results;
    var v := ValueOf(results[id0].a, c);
    assert forall id :: id in results ==> ValueOf(SideOf(results[id], A), c) == v;
    assert forall id :: id in results ==> ValueOf(SideOf(results[id], B), c) == v;
    OnlyChose(results, c, A, v);
    OnlyChose(results, c, B, v);
    assert Count(vs, v, A) == n && Count(vs, v, B) == n;
    assert forall w :: w != v ==> Count(vs, w, A) == |Chose(results, results.Keys, c, A, w)| == 0;
    SingleValueProducts(vs, v, n);
    FullProducts(vs, n);
  }

  /** Products of `n * n` make a chance agreement of one. */
  lemma FullProducts(vs: seq<ValueCount>, n: nat)
    requires n > 0 && Products(vs) == n * n
    ensures Chance(vs, n) == 1.0
  {
    ChanceIsProductsOverSquare(vs, n);
    RatioBounds(Chance(vs, n), Products(vs), n);
  }

  /** The chance agreement is exactly one if and only if both annotators chose
      the same single value for every token -- the only inputs on which kappa
      divides by zero. */
  lemma ChanceOneIffUnanimous(results: map<string, Answer>, c: Category, t: Tally)
    requires Tallies(results, results.Keys, c, t) && |results| > 0
    ensures Chance(t.values, |results|) == 1.0 <==> Unanimous(results, c)
  {
    if Chance(t.values, |results|) == 1.0 { ChanceOneMeansUnanimous(results, c, t); }
    if Unanimous(results, c) { UnanimousMeansChanceOne(results, c, t); }
  }

  /** Unanimous choices with consistent match flags are perfect agreement. */
  lemma UnanimousMeansPerfect(results: map<string, Answer>, c: Category, t: Tally)
    requires Tallies(results, results.Keys, c, t)
    requires forall id :: id in results ==> Consistent(results[id])
    requires Unanimous(results, c)
    ensures t.agree == |results| && t.disagree == 0
  {
    assert Agreed(results, results.Keys, c) == results.Keys;
  }

  // ================================================================ statistics

  /** The tally of `n` tokens: every token counted once per annotator. */
  ghost predicate Balanced(t: Tally, n: nat)
  {
    t.agree <= n && Total(t.values, A) == n && Total(t.values, B) == n
  }

  lemma {:induction false} ChanceBounds(vs: seq<ValueCount>, n: nat)
    requires n > 0 && Total(vs, A) == n && Total(vs, B) == n
    ensures 0.0 <= Chance(vs, n) <= 1.0
  {
    CountsBounded(vs, n);
    assert Other(A) == B;
    ProductsBound(vs, A, n);
    var total := Total(vs, A);
    assert Products(vs) <= total * n;
    assert total * n == n * n;
    ChanceIsProductsOverSquare(vs, n);
    RatioBounds(Chance(vs, n), Products(vs), n);
  }

  /** Kappa never exceeds one, and reaches it exactly under perfect observed
      agreement. */
  lemma KappaBounds(po: real, pe: real)
    requires po <= 1.0 && pe < 1.0
    ensures ((po - pe) / (1.0 - pe)) * (1.0 - pe) == po - pe
    ensures (po - pe) / (1.0 - pe) <= 1.0
    ensures (po - pe) / (1.0 - pe) == 1.0 <==> po == 1.0
  {
    var kappa := (po - pe) / (1.0 - pe);
    assert kappa * (1.0 - pe) == po - pe;
    ScaleCompare(kappa, 1.0 - pe, po - pe);
  }

  /** The observed agreement: a proportion of the `n` tokens. */
  lemma Proportion(k: nat, n: nat)
    requires 0 < n && k <= n
    ensures (k as real / n as real) * n as real == k as real
    ensures 0.0 <= k as real / n as real <= 1.0
    ensures k as real / n as real == 1.0 <==> k == n
  {
    var q := k as real / n as real;
    assert q * n as real == k as real;
    ScaleCompare(q, n as real, k as real);
  }

  /** po, pe and kappa of one category. */
  datatype CategoryAgreement = CategoryAgreement(tally: Tally, po: real, pe: real, kappa: real)

  /** Lines 161-187 for one category: po = agree/N, pe as `Chance`, and
      kappa = (po - pe) / (1 - pe). */
  function AgreementOf(t: Tally, n: nat): CategoryAgreement
    requires n > 0 && Chance(t.values, n) != 1.0
  {
    var po := t.agree as real / n as real;
    var pe := Chance(t.values, n);
    CategoryAgreement(t, po, pe, (po - pe) / (1.0 - pe))
  }

  /** On an exact tally, po is the share of matching tokens and lies in
      [0, 1], pe lies in [0, 1), and kappa solves kappa * (1 - pe) = po - pe,
      never exceeds one and is one exactly when every token matches. */
  lemma {:induction false} AgreementBounds(t: Tally, n: nat)
    requires n > 0 && Balanced(t, n) && Chance(t.values, n) != 1.0
    ensures var r := AgreementOf(t, n);
            && r.tally == t && r.pe == Chance(t.values, n)
            && r.po * n as real == t.agree as real
            && 0.0 <= r.po <= 1.0 && 0.0 <= r.pe < 1.0
            && r.kappa * (1.0 - r.pe) == r.po - r.pe
            && r.kappa <= 1.0
            && (r.kappa == 1.0 <==> t.agree == n)
  {
    var po := t.agree as real / n as real;
    Proportion(t.agree, n);
    var pe := Chance(t.values, n);
    ChanceBounds(t.values, n);
    KappaBounds(po, pe);
  }

  type Statistics = PerCategory<CategoryAgreement>

  /** The statistics of all three categories, failing as the source does:
      first on an empty comparable set, then on the first category, in the
      order lemma, detailed, simple, whose chance agreement is one. */
  function Summarize(tallies: PerCategory<Tally>, n: nat): (r: Result<Statistics, Failure>)
    requires forall c :: Balanced(tallies.Of(c), n)
    ensures r.Failure? ==> !r.error.MissingSelection?
    ensures r == Failure(NoComparableTokens) <==> n == 0
    ensures r.Failure? && r.error.ChanceAgreementIsOne? ==>
              && n > 0 && Chance(tallies.Of(r.error.category).values, n) == 1.0
              && forall c :: Index(c) < Index(r.error.category) ==> Chance(tallies.Of(c).values, n) != 1.0
    ensures r.Success? <==> n > 0 && forall c :: Chance(tallies.Of(c).values, n) != 1.0
    ensures r.Success? ==> forall c :: r.value.Of(c) == AgreementOf(tallies.Of(c), n)
  {
    if n == 0 then Failure(NoComparableTokens)
    else if Chance(tallies.Of(Lemma).values, n) == 1.0 then Failure(ChanceAgreementIsOne(Lemma))
    else if Chance(tallies.Of(Detailed).values, n) == 1.0 then Failure(ChanceAgreementIsOne(Detailed))
    else if Chance(tallies.Of(Simple).values, n) == 1.0 then Failure(ChanceAgreementIsOne(Simple))
    else Success(PerCategory(AgreementOf(tallies.Of(Lemma), n), AgreementOf(tallies.Of(Detailed), n), AgreementOf(tallies.Of(Simple), n)))
  }

  // ================================================================ report

  /** What `token_differences` holds: an aligned token set aside before the
      comparison (it carries the "modified_a" key), or an answer record. */
  datatype Difference = DifferingToken(aligned: Aligned) | DifferingAnalysis(answer: Answer)

  /** One entry of the difference report: the two form texts of a set-aside
      token (`None` for a missing token or text), or the two chosen analyses. */
  datatype Entry =
    | TokenEntry(id: string, formA: Text, formB: Text)
    | AnalysisEntry(id: string, a: Selected, b: Selected)

  function FormText(t: Option<Token>): Text
  {
    if t.Some? then t.value.form.text else None
  }

  function EntryOf(id: string, d: Difference): Entry
  {
    match d
    case DifferingToken(x) => TokenEntry(id, FormText(x.a), FormText(x.b))
    case DifferingAnalysis(ans) => AnalysisEntry(id, ans.a, ans.b)
  }

  /** `entries` is the report of `diffs`: one entry per id, in ascending id
      order, each rendered from its difference. */
  ghost predicate Reports(diffs: map<string, Difference>, entries: seq<Entry>)
  {
    && |entries| == |diffs|
    && (forall i :: 0 <= i < |entries| ==> entries[i].id in diffs && entries[i] == EntryOf(entries[i].id, diffs[entries[i].id]))
    && (forall i, j :: 0 <= i < j < |entries| ==> Below(entries[i].id, entries[j].id))
    && (forall id :: id in diffs ==> exists i :: 0 <= i < |entries| && entries[i].id == id)
  }

  /** The loop of lines 215-232, without the file and the message wording. */
  method Report(diffs: map<string, Difference>) returns (entries: seq<Entry>)
    ensures Reports(diffs, entries)
  {
    var ids := SortedKeys(diffs.Keys);
    entries := [];
    for i := 0 to |ids|
      invariant |entries| == i
      invariant forall k :: 0 <= k < i ==> entries[k] == EntryOf(ids[k], diffs[ids[k]])
    {
      entries := entries + [EntryOf(ids[i], diffs[ids[i]])];
    }
    ReportOfSorted(diffs, ids, entries);
  }

  /** Entries rendered one by one from the sorted keys form the report. */
  lemma ReportOfSorted(diffs: map<string, Difference>, ids: seq<string>, entries: seq<Entry>)
    requires Ascending(ids) && |ids| == |diffs|
    requires forall i :: 0 <= i < |ids| ==> ids[i] in diffs
    requires forall k :: k in diffs ==> k in ids
    requires |entries| == |ids|
    requires forall k :: 0 <= k < |ids| ==> entries[k] == EntryOf(ids[k], diffs[ids[k]])
    ensures Reports(diffs, entries)
  {
    forall i | 0 <= i < |entries| ensures entries[i].id == ids[i] {
    }
    forall id | id in diffs
      ensures exists i :: 0 <= i < |entries| && entries[i].id == id
    {
      var i :| 0 <= i < |ids| && ids[i] == id;
      assert entries[i].id == id;
    }
  }

  /** The keys of each part of an answer record, which the pre-pass of lines
      208-212 walks. */
  const AnswerKeys: seq<string> := ["a", "b", "results"]

  function KeysOf(part: string): seq<string>
  {
    if part == "results" then ["lemma", "detailed", "simple"]
    else ["lemma", "detailed", "simple", "ana_modified"]
  }

  // ================================================================ the calculator

  /** The calculator; `tokenDifferences` is `self.token_differences`. */
  class AnnotatorAgreementCalculator {
    var tokenDifferences: map<string, Difference>

    constructor ()
      ensures tokenDifferences == map[]
    {
      tokenDifferences := map[];
    }

    /** Lines 47-86: align the two annotators' tokens by id, record the
        one-sided and inconsistently edited ones as differences and return
        the rest. */
    method CreateTokenObjects(a: map<string, Token>, b: map<string, Token>) returns (tokenObjects: map<string, Aligned>)
      requires tokenDifferences.Keys <= a.Keys + b.Keys
      modifies this
      ensures tokenDifferences == old(tokenDifferences) + ExcludedMap(a, b, a.Keys + b.Keys)
      ensures tokenObjects == map id | id in a.Keys + b.Keys && id !in tokenDifferences :: AlignedOf(a, b, id)
    {
      var eachToken := a.Keys + b.Keys;
      ghost var start := tokenDifferences;
      tokenObjects := map[];
      var todo := eachToken;
      while todo != {}
        invariant todo <= eachToken
        invariant tokenObjects == AlignedMap(a, b, eachToken - todo)
        invariant tokenDifferences == start + ExcludedMap(a, b, eachToken - todo)
        decreases todo
      {
        var token :| token in todo;
        ghost var done := eachToken - todo;
        var entry, differs := AlignToken(a, b, token);
        ExcludedMapStep(a, b, done, token);
        if differs {
          MergeUpdate(start, ExcludedMap(a, b, done), token, DifferingToken(entry));
          tokenDifferences := tokenDifferences[token := DifferingToken(entry)];
        }
        tokenObjects := tokenObjects[token := entry];
        AlignedMapStep(a, b, done, token);
        assert eachToken - (todo - {token}) == done + {token};
        todo := todo - {token};
      }
      assert eachToken - todo == eachToken;
      tokenObjects := PopAll(tokenObjects, tokenDifferences.Keys);
      RemainingAligned(a, b, tokenDifferences.Keys);
    }

    /** Lines 95-128: each token's two chosen analyses and their per-category
        matches, or the `KeyError` of the first token (in iteration order)
        for which an annotator marked nothing correct. */
    method ExtractResults(tokenObjects: map<string, Aligned>) returns (r: Result<map<string, Answer>, Failure>)
      requires forall id :: id in tokenObjects ==> tokenObjects[id].a.Some? && tokenObjects[id].b.Some?
      ensures r.Success? <==> forall id :: id in tokenObjects ==> Selectable(tokenObjects[id])
      ensures r.Success? ==> r.value == AnswerMap(tokenObjects, tokenObjects.Keys)
      ensures r.Failure? ==> MissingFor(tokenObjects, r.error)
    {
      var answers: map<string, Answer> := map[];
      var todo := tokenObjects.Keys;
      while todo != {}
        invariant todo <= tokenObjects.Keys
        invariant forall id :: id in tokenObjects.Keys - todo ==> Selectable(tokenObjects[id])
        invariant answers == AnswerMap(tokenObjects, tokenObjects.Keys - todo)
        decreases todo
      {
        var token :| token in todo;
        ghost var done := tokenObjects.Keys - todo;
        var sa := SelectAnswer(tokenObjects[token].a.value.analyses);
        var sb := SelectAnswer(tokenObjects[token].b.value.analyses);
        if sa.None? {
          return Failure(MissingSelection(token, A));
        }
        if sb.None? {
          return Failure(MissingSelection(token, B));
        }
        assert Selectable(tokenObjects[token]);
        assert Judge(sa.value, sb.value) == AnswerOf(tokenObjects[token]);
        AnswerMapStep(tokenObjects, done, token);
        answers := answers[token := Judge(sa.value, sb.value)];
        assert tokenObjects.Keys - (todo - {token}) == done + {token};
        todo := todo - {token};
      }
      assert tokenObjects.Keys - todo == tokenObjects.Keys;
      r := Success(answers);
    }

    /** Lines 136-187: tally every category over all answers, record each
        token that disagrees on some category as a difference, and compute
        po, pe and kappa. */
    method CalculateDifferences(results: map<string, Answer>) returns (tallies: PerCategory<Tally>, r: Result<Statistics, Failure>)
      modifies this
      ensures tokenDifferences == old(tokenDifferences) + DisagreementMap(results, results.Keys)
      ensures forall c :: Tallies(results, results.Keys, c, tallies.Of(c))
      ensures forall c :: Balanced(tallies.Of(c), |results|)
      ensures r == Summarize(tallies, |results|)
    {
      tallies := CountAll(results);
      AllBalanced(results, tallies);
      r := Summarize(tallies, |results|);
    }

    /** Lines 136-158: the per-category tallies over all answers, recording
        every token that does not match in some category. */
    method CountAll(results: map<string, Answer>) returns (tallies: PerCategory<Tally>)
      modifies this
      ensures tokenDifferences == old(tokenDifferences) + DisagreementMap(results, results.Keys)
      ensures forall c :: Tallies(results, results.Keys, c, tallies.Of(c))
    {
      tallies := PerCategory(EmptyTally, EmptyTally, EmptyTally);
      var todo := results.Keys;
      forall c ensures Tallies(results, results.Keys - todo, c, tallies.Of(c)) {
        assert results.Keys - todo == {};
        EmptyTallies(results, c);
      }
      assert DisagreementMap(results, results.Keys - todo) == map[];
      while todo != {}
        invariant todo <= results.Keys
        invariant forall c :: Tallies(results, results.Keys - todo, c, tallies.Of(c))
        invariant tokenDifferences == old(tokenDifferences) + DisagreementMap(results, results.Keys - todo)
        decreases todo
      {
        var token :| token in todo;
        ghost var done := results.Keys - todo;
        ghost var before := tallies;
        tallies := CountToken(results[token], token, tallies);
        StepAllTallies(results, done, token, before, tallies);
        DisagreementMapStep(results, done, token);
        assert results.Keys - (todo - {token}) == done + {token};
        todo := todo - {token};
      }
      assert results.Keys - todo == results.Keys;
    }

    /** Lines 143-158 for one token: count it in every category, and record
        it as a difference when some category does not match. */
    method CountToken(ans: Answer, token: string, tallies0: PerCategory<Tally>) returns (tallies: PerCategory<Tally>)
      requires forall c :: Distinct(tallies0.Of(c).values)
      modifies this
      ensures forall c :: tallies.Of(c) == Step(tallies0.Of(c), ans, c)
      ensures tokenDifferences == if Disagrees(ans) then old(tokenDifferences)[token := DifferingAnalysis(ans)]
                                  else old(tokenDifferences)
    {
      tallies := tallies0;
      for k := 0 to |Categories|
        invariant tallies == Counted(tallies0, ans, k)
        invariant tokenDifferences == if DisagreesBefore(ans, k) then old(tokenDifferences)[token := DifferingAnalysis(ans)]
                                      else old(tokenDifferences)
      {
        var element := Categories[k];
        CountedStep(tallies0, ans, k);
        var t := CountCategory(tallies.Of(element), ans, element);
        if !ans.results.Of(element) {
          tokenDifferences := tokenDifferences[token := DifferingAnalysis(ans)];
        }
        tallies := tallies.With(element, t);
      }
      CountedAll(tallies0, ans);
    }

    /** Lines 203-232: the pre-pass over the answer records, which tests dict
        keys and so never adds a difference, then the report of all
        differences. */
    method ListDifferences(results: map<string, Answer>) returns (report: seq<Entry>)
      modifies this
      ensures tokenDifferences == old(tokenDifferences)
      ensures Reports(tokenDifferences, report)
    {
      var recorded: map<string, Difference> := map[];
      var todo := results.Keys;
      while todo != {}
        invariant todo <= results.Keys
        invariant recorded == map[]
        decreases todo
      {
        var result :| result in todo;
        var record := DifferingAnalysis(results[result]);
        for i := 0 to |AnswerKeys|
          invariant recorded == map[]
        {
          var attributes := KeysOf(AnswerKeys[i]);
          for j := 0 to |attributes|
            invariant recorded == map[]
          {
            if attributes[j] == "" {
              recorded := recorded[result := record];
            }
          }
        }
        todo := todo - {result};
      }
      tokenDifferences := tokenDifferences + recorded;
      assert tokenDifferences == old(tokenDifferences);
      report := Report(tokenDifferences);
    }
  }

  /** Lines 144-158 for one token and one category: count the match or the
      mismatch, then each annotator's choice. */
  method CountCategory(t: Tally, ans: Answer, element: Category) returns (r: Tally)
    requires Distinct(t.values)
    ensures r == Step(t, ans, element)
  {
    r := t;
    if ans.results.Of(element) {
      r := r.(agree := r.agree + 1);
    } else {
      r := r.(disagree := r.disagree + 1);
    }
    r := r.(values := Bump(r.values, ValueOf(ans.a, element), A));
    r := r.(values := Bump(r.values, ValueOf(ans.b, element), B));
  }

  /** Lines 98-120 for one annotator: the last candidate marked correct. */
  method SelectAnswer(anas: seq<Analysis>) returns (sel: Option<Selected>)
    ensures sel == Chosen(anas)
  {
    sel := None;
    for i := 0 to |anas|
      invariant sel == Chosen(anas[..i])
    {
      assert anas[..i + 1][..i] == anas[..i];
      if anas[i].correct {
        sel := Some(SelectedOf(anas[i]));
      }
    }
    assert anas[..|anas|] == anas;
  }

  /** Lines 53-81 for one id of either annotator: its aligned entry, and
      whether the id goes to the differences because one annotator lacks it,
      only one annotator edited the form, or both edited it to different
      texts. */
  method AlignToken(a: map<string, Token>, b: map<string, Token>, token: string) returns (entry: Aligned, differs: bool)
    requires token in a || token in b
    ensures entry == AlignedOf(a, b, token)
    ensures differs <==> !Comparable(entry)
  {
    entry := Aligned(Unflagged, Unflagged, None, None);
    differs := false;
    if token in a {
      if a[token].form.modified {
        entry := entry.(modifiedA := Flagged(a[token].form.text));
      }
      entry := entry.(a := Some(a[token]));
      if token in b {
        if b[token].form.modified {
          entry := entry.(modifiedB := Flagged(b[token].form.text));
        }
        entry := entry.(b := Some(b[token]));
      } else {
        entry := entry.(b := None);
        differs := true;
      }
    } else if token in b {
      if b[token].form.modified {
        entry := entry.(modifiedB := Flagged(b[token].form.text));
      }
      entry := entry.(b := Some(b[token]));
      entry := entry.(a := None);
      differs := true;
    }
    if Truthy(entry.modifiedA) && Truthy(entry.modifiedB) {
      if entry.modifiedA != entry.modifiedB {
        differs := true;
      }
    } else if Truthy(entry.modifiedA) {
      differs := true;
    } else if Truthy(entry.modifiedB) {
      differs := true;
    }
  }

  /** Lines 83-84: `token_objects.pop(token)` for every key of the
      differences, each of which is present. */
  method PopAll(m: map<string, Aligned>, keys: set<string>) returns (r: map<string, Aligned>)
    requires keys <= m.Keys
    ensures r == map id | id in m && id !in keys :: m[id]
  {
    r := m;
    var popping := keys;
    while popping != {}
      invariant popping <= keys
      invariant r == map id | id in m && (id !in keys || id in popping) :: m[id]
      decreases popping
    {
      var token :| token in popping;
      assert token in r;
      r := r - {token};
      popping := popping - {token};
    }
  }

  // ================================================================ the whole calculation

  /** The comparable tokens, aligned: what `create_token_objects` returns. */
  function ComparableMap(a: map<string, Token>, b: map<string, Token>): map<string, Aligned>
  {
    AlignedMap(a, b, ComparableIds(a, b))
  }

  /** Both annotators marked an analysis correct on every comparable token. */
  predicate AllSelectable(a: map<string, Token>, b: map<string, Token>)
  {
    forall id :: id in ComparableIds(a, b) ==> Selectable(AlignedOf(a, b, id))
  }

  /** The answer records of the comparable tokens. */
  function Answers(a: map<string, Token>, b: map<string, Token>): map<string, Answer>
    requires AllSelectable(a, b)
  {
    AnswerMap(ComparableMap(a, b), ComparableIds(a, b))
  }

  /** What one run of the calculator produces: the statistics it prints and
      the report it writes. */
  datatype Outcome = Outcome(statistics: Statistics, report: seq<Entry>)

  lemma TokenObjectsAreComparable(a: map<string, Token>, b: map<string, Token>)
    ensures (map id | id in a.Keys + b.Keys && id !in map[] + ExcludedMap(a, b, a.Keys + b.Keys) :: AlignedOf(a, b, id))
            == ComparableMap(a, b)
    ensures map[] + ExcludedMap(a, b, a.Keys + b.Keys) == ExcludedMap(a, b, a.Keys + b.Keys)
  {
  }

  lemma SelectableComparable(a: map<string, Token>, b: map<string, Token>)
    ensures AllSelectable(a, b) <==> forall id :: id in ComparableMap(a, b) ==> Selectable(ComparableMap(a, b)[id])
  {
    var m := ComparableMap(a, b);
    assert forall id :: id in m <==> id in ComparableIds(a, b);
    assert forall id :: id in m ==> m[id] == AlignedOf(a, b, id);
  }

  /** The statistics of category `c` are those of the exact tally of the
      comparable tokens. */
  ghost predicate StatisticsOf(a: map<string, Token>, b: map<string, Token>, statistics: Statistics, c: Category)
    requires AllSelectable(a, b)
  {
    var n := |ComparableIds(a, b)|;
    exists t :: && Tallies(Answers(a, b), ComparableIds(a, b), c, t)
                && n > 0 && Balanced(t, n) && Chance(t.values, n) != 1.0
                && statistics.Of(c) == AgreementOf(t, n)
  }

  /** What a successful run produces: per category the statistics of the
      comparable tokens, and the report of the set-aside tokens together with
      the comparable tokens that do not match in some category. */
  ghost predicate Describes(a: map<string, Token>, b: map<string, Token>, outcome: Outcome)
  {
    && AllSelectable(a, b)
    && Reports(ExcludedMap(a, b, a.Keys + b.Keys) + DisagreementMap(Answers(a, b), ComparableIds(a, b)), outcome.report)
    && forall c :: StatisticsOf(a, b, outcome.statistics, c)
  }

  /** The answers read off the comparable tokens, or the missing selection. */
  lemma ExtractedAnswers(a: map<string, Token>, b: map<string, Token>, extracted: Result<map<string, Answer>, Failure>)
    requires var m := ComparableMap(a, b);
             && (extracted.Success? <==> forall id :: id in m ==> Selectable(m[id]))
             && (extracted.Success? ==> extracted.value == AnswerMap(m, m.Keys))
             && (extracted.Failure? ==> MissingFor(m, extracted.error))
    ensures extracted.Success? <==> AllSelectable(a, b)
    ensures extracted.Failure? ==> MissingFor(ComparableMap(a, b), extracted.error)
    ensures extracted.Success? ==> extracted.value == Answers(a, b)
    ensures extracted.Success? ==> extracted.value.Keys == ComparableIds(a, b) && |extracted.value| == |ComparableIds(a, b)|
  {
    SelectableComparable(a, b);
    assert ComparableMap(a, b).Keys == ComparableIds(a, b);
    if extracted.Success? {
      assert extracted.value.Keys == ComparableIds(a, b);
      assert |extracted.value.Keys| == |extracted.value|;
    }
  }

  /** The statistics the calculator computed from exact tallies describe the
      comparable tokens. */
  lemma SummarizedStatistics(a: map<string, Token>, b: map<string, Token>, tallies: PerCategory<Tally>, statistics: Statistics)
    requires AllSelectable(a, b)
    requires forall c :: Tallies(Answers(a, b), Answers(a, b).Keys, c, tallies.Of(c))
    requires Answers(a, b).Keys == ComparableIds(a, b) && |Answers(a, b)| == |ComparableIds(a, b)|
    requires forall c :: Balanced(tallies.Of(c), |ComparableIds(a, b)|)
    requires Summarize(tallies, |ComparableIds(a, b)|) == Success(statistics)
    ensures forall c :: StatisticsOf(a, b, statistics, c)
    ensures forall c :: !Unanimous(Answers(a, b), c)
  {
    var n := |ComparableIds(a, b)|;
    forall c ensures StatisticsOf(a, b, statistics, c) && !Unanimous(Answers(a, b), c) {
      var t := tallies.Of(c);
      assert Tallies(Answers(a, b), ComparableIds(a, b), c, t);
      ChanceOneIffUnanimous(Answers(a, b), c, t);
    }
  }

  /** Lines 32-33 on a fresh calculator: align the tokens and read off the
      answers of the comparable ones. */
  method Compare(calculator: AnnotatorAgreementCalculator, a: map<string, Token>, b: map<string, Token>)
    returns (extracted: Result<map<string, Answer>, Failure>)
    requires calculator.tokenDifferences == map[]
    modifies calculator
    ensures calculator.tokenDifferences == ExcludedMap(a, b, a.Keys + b.Keys)
    ensures extracted.Success? <==> AllSelectable(a, b)
    ensures extracted.Failure? ==> MissingFor(ComparableMap(a, b), extracted.error)
    ensures extracted.Success? ==> extracted.value == Answers(a, b)
    ensures extracted.Success? ==> extracted.value.Keys == ComparableIds(a, b) && |extracted.value| == |ComparableIds(a, b)|
  {
    TokenObjectsAreComparable(a, b);
    var tokenObjects := calculator.CreateTokenObjects(a, b);
    assert tokenObjects == ComparableMap(a, b);
    extracted := calculator.ExtractResults(tokenObjects);
    ExtractedAnswers(a, b, extracted);
  }

  /** Lines 34-35: the statistics, then the report, of the comparable
      tokens' answers. */
  method Conclude(calculator: AnnotatorAgreementCalculator, a: map<string, Token>, b: map<string, Token>, results: map<string, Answer>)
    returns (r: Result<Outcome, Failure>)
    requires AllSelectable(a, b) && results == Answers(a, b)
    requires results.Keys == ComparableIds(a, b) && |results| == |ComparableIds(a, b)|
    requires calculator.tokenDifferences == ExcludedMap(a, b, a.Keys + b.Keys)
    modifies calculator
    ensures r.Failure? ==> r.error.NoComparableTokens? || r.error.ChanceAgreementIsOne?
    ensures r == Failure(NoComparableTokens) <==> ComparableIds(a, b) == {}
    ensures r.Failure? && r.error.ChanceAgreementIsOne? ==>
              ComparableIds(a, b) != {} && Unanimous(Answers(a, b), r.error.category)
    ensures r.Failure? && r.error.ChanceAgreementIsOne? ==>
              forall c :: Index(c) < Index(r.error.category) ==> !Unanimous(Answers(a, b), c)
    ensures r.Success? <==> ComparableIds(a, b) != {} && forall c :: !Unanimous(Answers(a, b), c)
    ensures r.Success? ==> Describes(a, b, r.value)
  {
    var tallies, statistics := calculator.CalculateDifferences(results);
    if statistics.Failure? {
      if statistics.error.ChanceAgreementIsOne? {
        var c := statistics.error.category;
        ChanceOneIffUnanimous(results, c, tallies.Of(c));
        forall d | Index(d) < Index(c) ensures !Unanimous(Answers(a, b), d) {
          ChanceOneIffUnanimous(results, d, tallies.Of(d));
        }
      }
      return Failure(statistics.error);
    }
    SummarizedStatistics(a, b, tallies, statistics.value);
    var report := calculator.ListDifferences(results);
    r := Success(Outcome(statistics.value, report));
  }

  /** Lines 25-35: a fresh calculator aligns the tokens, reads off the
      answers, computes the statistics and writes the report, stopping at the
      first exception. */
  method Calculate(a: map<string, Token>, b: map<string, Token>) returns (r: Result<Outcome, Failure>)
    ensures (r.Failure? && r.error.MissingSelection?) <==> !AllSelectable(a, b)
    ensures r.Failure? && r.error.MissingSelection? ==> MissingFor(ComparableMap(a, b), r.error)
    ensures r == Failure(NoComparableTokens) <==> AllSelectable(a, b) && ComparableIds(a, b) == {}
    ensures r.Failure? && r.error.ChanceAgreementIsOne? ==>
              AllSelectable(a, b) && ComparableIds(a, b) != {} && Unanimous(Answers(a, b), r.error.category)
    ensures r.Failure? && r.error.ChanceAgreementIsOne? ==>
              forall c :: Index(c) < Index(r.error.category) ==> !Unanimous(Answers(a, b), c)
    ensures r.Success? <==>
              AllSelectable(a, b) && ComparableIds(a, b) != {} && forall c :: !Unanimous(Answers(a, b), c)
    ensures r.Success? ==> Describes(a, b, r.value)
  {
    var calculator := new AnnotatorAgreementCalculator();
    var extracted := Compare(calculator, a, b);
    if extracted.Failure? {
      return Failure(extracted.error);
    }
    r := Conclude(calculator, a, b, extracted.value);
  }
}
