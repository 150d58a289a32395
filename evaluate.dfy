/** Reading MTurk answer documents and scoring them against the stored answer key
    (`parse_answer_xml` and the filter-and-tally body of `evaluate`). */
module Evaluation {
  import opened Wrappers
  import opened Xml
  import opened PyInt

  /** The namespace of MTurk's QuestionFormAnswers documents. */
  const AnswerNamespace := "http://mechanicalturk.amazonaws.com/AWSMechanicalTurkDataSchemas/2005-10-01/QuestionFormAnswers.xsd"

  const AnswerTag := "{" + AnswerNamespace + "}Answer"
  const QuestionIdentifierTag := "{" + AnswerNamespace + "}QuestionIdentifier"
  const SelectionIdentifierTag := "{" + AnswerNamespace + "}SelectionIdentifier"

  /** One answer: the question's key and the text of the selection (None for an
      empty SelectionIdentifier element). */
  datatype Answer = Answer(questionId: int, selection: Option<string>)

  /** What `parse_answer_xml` raises on an Answer element. */
  datatype ParseError =
    | MissingQuestionIdentifier          // `find` gave None: AttributeError on `.text`
    | QuestionIdentifierWithoutText      // `int(None)`: TypeError
    | QuestionIdentifierNotInteger(text: string)  // `int(text)`: ValueError
    | MissingSelectionIdentifier         // `find` gave None: AttributeError on `.text`

  /** One Answer element as the loop body of `parse_answer_xml` reads it: both
      children are looked up first, then the identifier is converted, then the
      selection's text is taken. */
  function ParseAnswer(answer: Element): Result<Answer, ParseError>
  {
    var questionKey := Find(answer, QuestionIdentifierTag);
    var selected := Find(answer, SelectionIdentifierTag);
    if questionKey.None? then Err(MissingQuestionIdentifier)
    else if questionKey.value.text.None? then Err(QuestionIdentifierWithoutText)
    else match ParseInt(questionKey.value.text.value)
      case None => Err(QuestionIdentifierNotInteger(questionKey.value.text.value))
      case Some(id) =>
        if selected.None? then Err(MissingSelectionIdentifier)
        else Ok(Answer(id, selected.value.text))
  }

  /** What `parse_answer_xml` returns for the root of an answer document. */
  function ParseAnswers(root: Element): Result<seq<Answer>, ParseError>
  {
    Traverse(ParseAnswer, FindAll(root, AnswerTag))
  }

  /** `parse_answer_xml`: the Answer children are read in document order,
      one pair appended per child, and the first error is raised. */
  method ParseAnswerXml(root: Element) returns (r: Result<seq<Answer>, ParseError>)
    ensures r == ParseAnswers(root)
  {
    r := TraverseLoop(ParseAnswer, FindAll(root, AnswerTag));
  }

  // ---------------------------------------------------------------------------
  // The answer document MTurk returns, built from its answers

  function AnswerElement(a: Answer): Element
  {
    Node(AnswerTag, [
      Leaf(QuestionIdentifierTag, DecimalString(a.questionId)),
      Element(SelectionIdentifierTag, map[], a.selection, [])])
  }

  function AnswerDocument(answers: seq<Answer>): Element
  {
    Node("{" + AnswerNamespace + "}QuestionFormAnswers", seq(|answers|, i requires 0 <= i < |answers| => AnswerElement(answers[i])))
  }

  lemma ParseAnswerElement(a: Answer)
    ensures ParseAnswer(AnswerElement(a)) == Ok(a)
  {
    var e := AnswerElement(a);
    assert |QuestionIdentifierTag| != |SelectionIdentifierTag|;
    ParseIntOfDecimalString(a.questionId);
    assert Find(e, QuestionIdentifierTag) == Some(e.children[0]);
    assert Find(e, SelectionIdentifierTag) == Some(e.children[1]);
  }

  /** Parsing returns one pair per Answer element, in document order, holding
      that element's identifier and selection. */
  lemma ParseAnswerDocument(answers: seq<Answer>)
    ensures ParseAnswers(AnswerDocument(answers)) == Ok(answers)
  {
    var root := AnswerDocument(answers);
    MatchingKeepsAll(root.children, AnswerTag);
    forall i | 0 <= i < |answers| ensures ParseAnswer(root.children[i]) == Ok(answers[i]) {
      ParseAnswerElement(answers[i]);
    }
    var r := ParseAnswers(root);
    assert r.Ok?;
    assert r.value == answers;
  }

  /** Children of the root that are not Answer elements do not change the result. */
  lemma ParseAnswersIgnoresOthers(root: Element, k: nat, other: Element)
    requires k <= |root.children| && other.tag != AnswerTag
    ensures ParseAnswers(root.(children := root.children[..k] + [other] + root.children[k..]))
         == ParseAnswers(root)
  {
    MatchingSkips(root.children[..k], other, root.children[k..], AnswerTag);
    assert root.children[..k] + root.children[k..] == root.children;
  }

  /** `children[k]` is the first child of `e` tagged `tag`: the one `find` returns. */
  predicate FirstWithTag(e: Element, tag: string, k: int)
  {
    && 0 <= k < |e.children|
    && e.children[k].tag == tag
    && forall j :: 0 <= j < k ==> e.children[j].tag != tag
  }

  /** What one Answer element yields, stated on its children: the pair is
      `int()` of the first QuestionIdentifier's text and the text of the first
      SelectionIdentifier, and each way of failing raises its own error. */
  lemma ParseAnswerFailures(answer: Element)
    ensures (forall c :: c in answer.children ==> c.tag != QuestionIdentifierTag)
              ==> ParseAnswer(answer) == Err(MissingQuestionIdentifier)
    ensures forall k :: FirstWithTag(answer, QuestionIdentifierTag, k) && answer.children[k].text.None?
              ==> ParseAnswer(answer) == Err(QuestionIdentifierWithoutText)
    ensures forall k :: FirstWithTag(answer, QuestionIdentifierTag, k) && answer.children[k].text.Some?
                        && ParseInt(answer.children[k].text.value).None?
              ==> ParseAnswer(answer) == Err(QuestionIdentifierNotInteger(answer.children[k].text.value))
    ensures forall k :: FirstWithTag(answer, QuestionIdentifierTag, k) && answer.children[k].text.Some?
                        && ParseInt(answer.children[k].text.value).Some?
                        && (forall c :: c in answer.children ==> c.tag != SelectionIdentifierTag)
              ==> ParseAnswer(answer) == Err(MissingSelectionIdentifier)
    ensures (forall c :: c in answer.children ==> c.tag != SelectionIdentifierTag)
              ==> ParseAnswer(answer).Err?
    ensures forall k, m :: FirstWithTag(answer, QuestionIdentifierTag, k) && answer.children[k].text.Some?
                           && ParseInt(answer.children[k].text.value).Some?
                           && FirstWithTag(answer, SelectionIdentifierTag, m)
              ==> ParseAnswer(answer)
                  == Ok(Answer(ParseInt(answer.children[k].text.value).value, answer.children[m].text))
    ensures ParseAnswer(answer).Ok? ==>
              && (exists k :: FirstWithTag(answer, QuestionIdentifierTag, k)
                   && answer.children[k].text.Some?
                   && ParseInt(answer.children[k].text.value) == Some(ParseAnswer(answer).value.questionId))
              && (exists m :: FirstWithTag(answer, SelectionIdentifierTag, m)
                   && ParseAnswer(answer).value.selection == answer.children[m].text)
  {
    forall k | FirstWithTag(answer, QuestionIdentifierTag, k)
      ensures Find(answer, QuestionIdentifierTag) == Some(answer.children[k])
    {
      assert FirstIndex(answer.children, QuestionIdentifierTag) == Some(k);
    }
    forall m | FirstWithTag(answer, SelectionIdentifierTag, m)
      ensures Find(answer, SelectionIdentifierTag) == Some(answer.children[m])
    {
      assert FirstIndex(answer.children, SelectionIdentifierTag) == Some(m);
    }
    if ParseAnswer(answer).Ok? {
      var k := FirstIndex(answer.children, QuestionIdentifierTag).value;
      var m := FirstIndex(answer.children, SelectionIdentifierTag).value;
      assert FirstWithTag(answer, QuestionIdentifierTag, k);
      assert FirstWithTag(answer, SelectionIdentifierTag, m);
    }
  }
}

module Scoring {
  import opened Wrappers
  import opened Xml
  import opened Evaluation

  /** What the Question table holds for one question key: its gold answer and the
      filename of the dataset its instance belongs to (both nullable columns). */
  datatype StoredQuestion = StoredQuestion(answer: Option<string>, dataset: Option<string>)

  /** The Question table, by primary key. */
  type AnswerKey = map<int, StoredQuestion>

  /** A submitted assignment: the worker who did it and its parsed answer document. */
  datatype Assignment = Assignment(workerId: string, answer: Element)

  datatype EvalError =
    | InvalidAnswer(cause: ParseError)   // raised by `parse_answer_xml`
    | UnknownQuestion(questionId: int)   // `.one()` found no Question with that key

  /** The six counters of `evaluate`: correct and total answers per dataset,
      per worker and per question. A key that a `defaultdict` has never been
      touched with is absent. */
  datatype Tally = Tally(
    datasetCorrect: map<Option<string>, nat>, datasetTotal: map<Option<string>, nat>,
    workerCorrect: map<string, nat>, workerTotal: map<string, nat>,
    questionCorrect: map<int, nat>, questionTotal: map<int, nat>)

  const EmptyTally := Tally(map[], map[], map[], map[], map[], map[])

  /** `d[k]` of a `defaultdict(int)`. */
  function Lookup<K>(m: map<K, nat>, k: K): nat
  {
    if k in m then m[k] else 0
  }

  /** `d[k] += n` on a `defaultdict(int)`: the key is created even when n is 0. */
  function Increment<K>(m: map<K, nat>, k: K, n: nat): (r: map<K, nat>)
    ensures r.Keys == m.Keys + {k}
    ensures r[k] == Lookup(m, k) + n
    ensures forall j :: j in m && j != k ==> r[j] == m[j]
  {
    m[k := Lookup(m, k) + n]
  }

  /** The six updates made for one counted answer. */
  function Record(t: Tally, workerId: string, a: Answer, q: StoredQuestion): Tally
  {
    var correct := if a.selection == q.answer then 1 else 0;
    Tally(
      Increment(t.datasetCorrect, q.dataset, correct), Increment(t.datasetTotal, q.dataset, 1),
      Increment(t.workerCorrect, workerId, correct), Increment(t.workerTotal, workerId, 1),
      Increment(t.questionCorrect, a.questionId, correct), Increment(t.questionTotal, a.questionId, 1))
  }

  /** For each counted answer the three totals rise by exactly one, the three
      correct counts by one when the selection equals the stored answer and by
      zero otherwise, and every other key keeps its counts. */
  lemma RecordCounts(t: Tally, workerId: string, a: Answer, q: StoredQuestion)
    ensures var r := Record(t, workerId, a, q);
      && Lookup(r.datasetTotal, q.dataset) == Lookup(t.datasetTotal, q.dataset) + 1
      && Lookup(r.workerTotal, workerId) == Lookup(t.workerTotal, workerId) + 1
      && Lookup(r.questionTotal, a.questionId) == Lookup(t.questionTotal, a.questionId) + 1
      && Lookup(r.datasetCorrect, q.dataset) == Lookup(t.datasetCorrect, q.dataset) + (if a.selection == q.answer then 1 else 0)
      && Lookup(r.workerCorrect, workerId) == Lookup(t.workerCorrect, workerId) + (if a.selection == q.answer then 1 else 0)
      && Lookup(r.questionCorrect, a.questionId) == Lookup(t.questionCorrect, a.questionId) + (if a.selection == q.answer then 1 else 0)
      && (forall d :: d != q.dataset ==>
            Lookup(r.datasetTotal, d) == Lookup(t.datasetTotal, d) && Lookup(r.datasetCorrect, d) == Lookup(t.datasetCorrect, d))
      && (forall w :: w != workerId ==>
            Lookup(r.workerTotal, w) == Lookup(t.workerTotal, w) && Lookup(r.workerCorrect, w) == Lookup(t.workerCorrect, w))
      && (forall k :: k != a.questionId ==>
            Lookup(r.questionTotal, k) == Lookup(t.questionTotal, k) && Lookup(r.questionCorrect, k) == Lookup(t.questionCorrect, k))
  {
  }

  /** `all(map(lambda x: x[1] == s, answers))`. */
  function AllSelected(answers: seq<Answer>, s: string): (r: bool)
    ensures r <==> forall i :: 0 <= i < |answers| ==> answers[i].selection == Some(s)
  {
    answers == [] || (answers[0].selection == Some(s) && AllSelected(answers[1..], s))
  }

  /** The "no variability" test: every answer is 'a', or every answer is 'b'.
      It holds of an assignment without answers. */
  predicate NoVariability(answers: seq<Answer>)
  {
    AllSelected(answers, "a") || AllSelected(answers, "b")
  }

  /** One answer of a counted assignment: its question is looked up, then counted. */
  function CountAnswer(key: AnswerKey, workerId: string, t: Tally, a: Answer): Result<Tally, EvalError>
  {
    if a.questionId in key then Ok(Record(t, workerId, a, key[a.questionId]))
    else Err(UnknownQuestion(a.questionId))
  }

  function AnswerStep(key: AnswerKey, workerId: string): (Tally, Answer) -> Result<Tally, EvalError>
  {
    (t, a) => CountAnswer(key, workerId, t, a)
  }

  /** The inner loop over one assignment's answers. */
  function TallyAnswers(key: AnswerKey, workerId: string, t: Tally, answers: seq<Answer>): Result<Tally, EvalError>
  {
    Fold(AnswerStep(key, workerId), t, answers)
  }

  /** One pass of the outer loop: parse, skip when there is no variability,
      count every answer otherwise. */
  function TallyAssignment(key: AnswerKey, t: Tally, a: Assignment): Result<Tally, EvalError>
  {
    match ParseAnswers(a.answer)
    case Err(e) => Err(InvalidAnswer(e))
    case Ok(answers) =>
      if NoVariability(answers) then Ok(t) else TallyAnswers(key, a.workerId, t, answers)
  }

  function AssignmentStep(key: AnswerKey): (Tally, Assignment) -> Result<Tally, EvalError>
  {
    (t, a) => TallyAssignment(key, t, a)
  }

  /** The six counters after all assignments, or the first error raised. */
  function EvaluateAll(key: AnswerKey, assignments: seq<Assignment>): Result<Tally, EvalError>
  {
    Fold(AssignmentStep(key), EmptyTally, assignments)
  }

  // ---------------------------------------------------------------------------
  // What the counters promise

  /** The sum of a counter's values. */
  ghost function MapSum<K>(m: map<K, nat>): nat
    decreases |m|
  {
    if m == map[] then 0
    else
      var k :| k in m;
      assert |(m - {k}).Keys| == |m.Keys| - 1 by { assert (m - {k}).Keys == m.Keys - {k}; }
      m[k] + MapSum(m - {k})
  }

  lemma {:induction false} MapSumRemove<K>(m: map<K, nat>, k: K)
    requires k in m
    ensures MapSum(m) == m[k] + MapSum(m - {k})
    decreases |m|
  {
    var j :| j in m && MapSum(m) == m[j] + MapSum(m - {j});
    if j != k {
      assert (m - {j}).Keys == m.Keys - {j};
      assert (m - {k}).Keys == m.Keys - {k};
      MapSumRemove(m - {j}, k);
      MapSumRemove(m - {k}, j);
      assert m - {j} - {k} == m - {k} - {j};
    }
  }

  /** `d[k] += n` raises the sum of the counter by n. */
  lemma MapSumIncrement<K>(m: map<K, nat>, k: K, n: nat)
    ensures MapSum(Increment(m, k, n)) == MapSum(m) + n
  {
    var r := Increment(m, k, n);
    MapSumRemove(r, k);
    assert r - {k} == m - {k};
    if k in m {
      MapSumRemove(m, k);
    } else {
      assert m - {k} == m;
    }
  }

  /** A correct counter and its total counter have the same keys, and under
      each key 1 <= total and correct <= total. */
  ghost predicate Paired<K>(correct: map<K, nat>, total: map<K, nat>)
  {
    && correct.Keys == total.Keys
    && forall k :: k in total ==> 1 <= total[k] && correct[k] <= total[k]
  }

  /** Every counter pair is paired, and the three totals add up to the same number. */
  ghost predicate Consistent(t: Tally)
  {
    && Paired(t.datasetCorrect, t.datasetTotal)
    && Paired(t.workerCorrect, t.workerTotal)
    && Paired(t.questionCorrect, t.questionTotal)
    && MapSum(t.datasetTotal) == MapSum(t.workerTotal) == MapSum(t.questionTotal)
  }

  lemma IncrementPaired<K>(correct: map<K, nat>, total: map<K, nat>, k: K, c: nat)
    requires Paired(correct, total) && c <= 1
    ensures Paired(Increment(correct, k, c), Increment(total, k, 1))
  {
  }

  /** Counting one answer raises each of the three sums by one. */
  lemma RecordSums(t: Tally, workerId: string, a: Answer, q: StoredQuestion)
    ensures var r := Record(t, workerId, a, q);
      && MapSum(r.datasetTotal) == MapSum(t.datasetTotal) + 1
      && MapSum(r.workerTotal) == MapSum(t.workerTotal) + 1
      && MapSum(r.questionTotal) == MapSum(t.questionTotal) + 1
  {
    MapSumIncrement(t.datasetTotal, q.dataset, 1);
    MapSumIncrement(t.workerTotal, workerId, 1);
    MapSumIncrement(t.questionTotal, a.questionId, 1);
  }

  lemma RecordConsistent(t: Tally, workerId: string, a: Answer, q: StoredQuestion)
    requires Consistent(t)
    ensures Consistent(Record(t, workerId, a, q))
  {
    var correct := if a.selection == q.answer then 1 else 0;
    IncrementPaired(t.datasetCorrect, t.datasetTotal, q.dataset, correct);
    IncrementPaired(t.workerCorrect, t.workerTotal, workerId, correct);
    IncrementPaired(t.questionCorrect, t.questionTotal, a.questionId, correct);
    RecordSums(t, workerId, a, q);
  }

  /** How many of the answers agree with the stored answer of their question. */
  function Matches(key: AnswerKey, answers: seq<Answer>): nat
  {
    if answers == [] then 0
    else
      var a := answers[|answers| - 1];
      Matches(key, answers[..|answers| - 1])
        + (if a.questionId in key && a.selection == key[a.questionId].answer then 1 else 0)
  }

  /** Counting the answers of one assignment raises each sum by their number,
      the worker's total by their number and the worker's correct count by the
      number that agree with the answer key. */
  lemma {:induction false} TallyAnswersCounts(key: AnswerKey, workerId: string, t: Tally, answers: seq<Answer>)
    ensures TallyAnswers(key, workerId, t, answers).Ok? ==>
      var r := TallyAnswers(key, workerId, t, answers).value;
      && MapSum(r.datasetTotal) == MapSum(t.datasetTotal) + |answers|
      && MapSum(r.workerTotal) == MapSum(t.workerTotal) + |answers|
      && MapSum(r.questionTotal) == MapSum(t.questionTotal) + |answers|
      && Lookup(r.workerTotal, workerId) == Lookup(t.workerTotal, workerId) + |answers|
      && Lookup(r.workerCorrect, workerId) == Lookup(t.workerCorrect, workerId) + Matches(key, answers)
    decreases |answers|
  {
    if answers != [] {
      var n := |answers| - 1;
      var init := answers[..n];
      TallyAnswersCounts(key, workerId, t, init);
      var prefix := TallyAnswers(key, workerId, t, init);
      if prefix.Ok? && answers[n].questionId in key {
        RecordSums(prefix.value, workerId, answers[n], key[answers[n].questionId]);
        RecordCounts(prefix.value, workerId, answers[n], key[answers[n].questionId]);
      }
    }
  }

  lemma {:induction false} TallyAnswersConsistent(key: AnswerKey, workerId: string, t: Tally, answers: seq<Answer>)
    requires Consistent(t)
    ensures TallyAnswers(key, workerId, t, answers).Ok? ==> Consistent(TallyAnswers(key, workerId, t, answers).value)
    decreases |answers|
  {
    if answers != [] {
      var n := |answers| - 1;
      TallyAnswersConsistent(key, workerId, t, answers[..n]);
      var prefix := TallyAnswers(key, workerId, t, answers[..n]);
      if prefix.Ok? && answers[n].questionId in key {
        RecordConsistent(prefix.value, workerId, answers[n], key[answers[n].questionId]);
      }
    }
  }

  /** The skip rule is exact: an assignment whose answers are all 'a' or all 'b'
      (or that has none) leaves every counter as it was; any other assignment
      that is counted raises the worker's total by its number of answers, which
      is at least one. */
  lemma SkipRule(key: AnswerKey, t: Tally, a: Assignment, answers: seq<Answer>)
    requires ParseAnswers(a.answer) == Ok(answers)
    ensures NoVariability(answers) ==> TallyAssignment(key, t, a) == Ok(t)
    ensures !NoVariability(answers) && TallyAssignment(key, t, a).Ok? ==>
              && |answers| >= 1
              && Lookup(TallyAssignment(key, t, a).value.workerTotal, a.workerId) == Lookup(t.workerTotal, a.workerId) + |answers|
              && MapSum(TallyAssignment(key, t, a).value.workerTotal) == MapSum(t.workerTotal) + |answers|
  {
    TallyAnswersCounts(key, a.workerId, t, answers);
  }

  /** How many answers an assignment contributes: none when it is skipped. */
  function AnswersCounted(a: Assignment): nat
  {
    match ParseAnswers(a.answer)
    case Err(_) => 0
    case Ok(answers) => if NoVariability(answers) then 0 else |answers|
  }

  function CountedAnswers(assignments: seq<Assignment>): nat
  {
    if assignments == [] then 0
    else CountedAnswers(assignments[..|assignments| - 1]) + AnswersCounted(assignments[|assignments| - 1])
  }

  /** One assignment keeps the counters consistent and adds the answers it
      contributes to each of the three sums of totals. */
  lemma TallyAssignmentTotals(key: AnswerKey, t: Tally, a: Assignment)
    requires Consistent(t)
    ensures TallyAssignment(key, t, a).Ok? ==>
      var r := TallyAssignment(key, t, a).value;
      && Consistent(r)
      && MapSum(r.datasetTotal) == MapSum(t.datasetTotal) + AnswersCounted(a)
      && MapSum(r.workerTotal) == MapSum(t.workerTotal) + AnswersCounted(a)
      && MapSum(r.questionTotal) == MapSum(t.questionTotal) + AnswersCounted(a)
  {
    match ParseAnswers(a.answer)
    case Err(_) =>
    case Ok(answers) =>
      TallyAnswersCounts(key, a.workerId, t, answers);
      TallyAnswersConsistent(key, a.workerId, t, answers);
  }

  /** After a successful evaluation the counters are consistent, and the totals
      over datasets, over workers and over questions each add up to the number
      of answers in the assignments that were not skipped. */
  lemma {:induction false} EvaluateTotals(key: AnswerKey, assignments: seq<Assignment>)
    ensures EvaluateAll(key, assignments).Ok? ==>
      var t := EvaluateAll(key, assignments).value;
      && Consistent(t)
      && MapSum(t.datasetTotal) == CountedAnswers(assignments)
      && MapSum(t.workerTotal) == CountedAnswers(assignments)
      && MapSum(t.questionTotal) == CountedAnswers(assignments)
    decreases |assignments|
  {
    if assignments != [] {
      var n := |assignments| - 1;
      EvaluateTotals(key, assignments[..n]);
      var prefix := EvaluateAll(key, assignments[..n]);
      if prefix.Ok? {
        TallyAssignmentTotals(key, prefix.value, assignments[n]);
      }
    } else {
      assert MapSum(EmptyTally.datasetTotal) == 0;
    }
  }

  /** Every key the report iterates over has a total of at least one, so none
      of its ratios divides by zero. */
  lemma ReportHasNoZeroTotal(key: AnswerKey, assignments: seq<Assignment>)
    ensures EvaluateAll(key, assignments).Ok? ==>
      var t := EvaluateAll(key, assignments).value;
      && (forall d :: d in t.datasetCorrect ==> d in t.datasetTotal && t.datasetTotal[d] >= 1)
      && (forall w :: w in t.workerCorrect ==> w in t.workerTotal && t.workerTotal[w] >= 1)
      && (forall k :: k in t.questionCorrect ==> k in t.questionTotal && t.questionTotal[k] >= 1)
  {
    EvaluateTotals(key, assignments);
  }

  /** The inner loop of `evaluate` over the answers of one kept assignment:
      each question is looked up and the six counters are updated. */
  method CountAnswers(key: AnswerKey, workerId: string, t: Tally, answers: seq<Answer>)
    returns (r: Result<Tally, EvalError>)
    ensures r == TallyAnswers(key, workerId, t, answers)
  {
    var dbCorrect: map<Option<string>, nat>, dbTotal: map<Option<string>, nat> := t.datasetCorrect, t.datasetTotal;
    var turkerCorrect: map<string, nat>, turkerTotal: map<string, nat> := t.workerCorrect, t.workerTotal;
    var questionCorrect: map<int, nat>, questionTotal: map<int, nat> := t.questionCorrect, t.questionTotal;
    for j := 0 to |answers|
      invariant Fold(AnswerStep(key, workerId), t, answers[..j])
             == Ok(Tally(dbCorrect, dbTotal, turkerCorrect, turkerTotal, questionCorrect, questionTotal))
    {
      FoldExtend(AnswerStep(key, workerId), t, answers, j,
                 Tally(dbCorrect, dbTotal, turkerCorrect, turkerTotal, questionCorrect, questionTotal));
      var questionId := answers[j].questionId;
      var answer := answers[j].selection;
      if questionId !in key {
        assert TallyAnswers(key, workerId, t, answers) == Err(UnknownQuestion(questionId)) by {
          FoldErrorSticks(AnswerStep(key, workerId), t, answers, j + 1);
        }
        return Err(UnknownQuestion(questionId));
      }
      var question := key[questionId];
      var correct: nat := if answer == question.answer then 1 else 0;
      var dataset := question.dataset;
      dbCorrect := Increment(dbCorrect, dataset, correct);
      dbTotal := Increment(dbTotal, dataset, 1);
      turkerCorrect := Increment(turkerCorrect, workerId, correct);
      turkerTotal := Increment(turkerTotal, workerId, 1);
      questionCorrect := Increment(questionCorrect, questionId, correct);
      questionTotal := Increment(questionTotal, questionId, 1);
    }
    assert answers[..|answers|] == answers;
    r := Ok(Tally(dbCorrect, dbTotal, turkerCorrect, turkerTotal, questionCorrect, questionTotal));
  }

  /** The body of `evaluate` from its first loop to the report: every
      assignment is parsed and filtered, and the answers of a kept assignment
      are counted. Any exception ends the whole evaluation. */
  method Evaluate(key: AnswerKey, assignments: seq<Assignment>) returns (r: Result<Tally, EvalError>)
    ensures r == EvaluateAll(key, assignments)
  {
    var tally := EmptyTally;
    for i := 0 to |assignments|
      invariant EvaluateAll(key, assignments[..i]) == Ok(tally)
    {
      FoldExtend(AssignmentStep(key), EmptyTally, assignments, i, tally);
      var assignment := assignments[i];
      var parsed := ParseAnswerXml(assignment.answer);
      if parsed.Err? {
        FoldErrorSticks(AssignmentStep(key), EmptyTally, assignments, i + 1);
        return Err(InvalidAnswer(parsed.error));
      }
      var answers := parsed.value;
      var allA := AllSelected(answers, "a");
      var allB := AllSelected(answers, "b");
      if allA || allB {
        continue;
      }
      var counted := CountAnswers(key, assignment.workerId, tally, answers);
      if counted.Err? {
        FoldErrorSticks(AssignmentStep(key), EmptyTally, assignments, i + 1);
        return Err(counted.error);
      }
      tally := counted.value;
    }
    assert assignments[..|assignments|] == assignments;
    r := Ok(tally);
  }
}
