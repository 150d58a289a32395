# mturk-tools: answer scoring and QuestionForm building

`mturk-tools` runs Amazon Mechanical Turk evaluations. This project models its
two pieces of logic over an abstract XML element tree.
`Xml.Element` has a tag, attributes, optional text and children.
Namespaced tags are written in Clark notation, `{uri}local`, which is how
ElementTree stores them.

* **Scoring workers' answers** (`mtools/evaluate.py`).
  * `parse_answer_xml` reads an MTurk QuestionFormAnswers document. It returns
    one `(question id, selection)` pair per `Answer` child of the root.
    `Evaluation.ParseAnswers` specifies it and `Evaluation.ParseAnswerXml` is
    its loop.
  * Python's `int()` on the identifier text is modelled in module `PyInt`. It
    accepts surrounding whitespace, a sign, and single underscores between
    ASCII digits.
  * The body of `evaluate` runs over every submitted assignment:
    * it parses the answers;
    * it skips the assignment when every answer is `a` or every answer is `b`
      (the "no variability" rule, which also skips an assignment with no
      answers);
    * otherwise it updates six counters: correct and total answers per
      dataset, per worker and per question.
  * `Scoring.EvaluateAll` specifies that body and `Scoring.Evaluate` and
    `Scoring.CountAnswers` are its nested loops.
  * The database is replaced by an answer key. `Scoring.AnswerKey` maps a
    question key to its stored answer and its dataset's filename. Both are
    nullable columns, so both are `Option`s.
  * Python's `==` counts a missing selection as correct against a missing
    stored answer, and so does the model.
  * Any exception ends the whole evaluation before the report is printed. The
    model returns `Err` in those cases: a parse error (`InvalidAnswer`) or a
    question key with no row in the table (`UnknownQuestion`).
* **Building a QuestionForm** (`mtools/question_form.py`).
  * `QuestionForms.QuestionForm` is a class whose `root` field is the root of
    the form's tree.
  * A ghost field `calls` records every `add_*` call made so far. `Valid()`
    says that the root has exactly one child per call, in call order, and
    that each child is the element its call builds.
  * `add_multiple_choice_question` names the choices `a`, `b`, `c`, … by
    position. With more than 26 choices, `string.ascii_lowercase[26]` raises
    IndexError in the 27th pass of the loop.
  * By then the `Question` element is in the tree, with 26 complete
    selections and one unfinished one. The unfinished selection is a
    `Selection` holding an empty `SelectionIdentifier`, because both
    `SubElement` calls come before the failing index.
  * The model returns `false` in that case and leaves the same partial tree
    (`QuestionForms.UnfinishedSelection`).
  * So the root has one child per call, including calls that failed. It is
    not one per successful call.

Module `Wrappers` holds `Option`, `Result` and two sequence combinators:
`Traverse` maps a function over a sequence and stops at the first error, and
`Fold` is a left fold that stops at the first error. The loops are proved
equal to them.

## Model

| member | source | states |
|---|---|---|
| Wrappers.Traverse | mtools/evaluate.py:41-46 | the result is Ok exactly when every element converts; it then has one value per element, in order |
| Wrappers.TraverseFirstError | mtools/evaluate.py:42-45 | the error returned is the one raised by the first element that fails |
| Wrappers.TraverseLoop | mtools/evaluate.py:41-46 | the append loop returns what `Traverse` specifies |
| Wrappers.Fold | mtools/evaluate.py:90-120 | a loop whose body may raise: the state after every element, or the first exception, which ends the loop (properties in `FoldExtend`, `FoldErrorSticks`) |
| Wrappers.FoldErrorSticks | mtools/evaluate.py:90-120 | once a prefix of the loop fails, the whole loop fails with that error |
| Xml.FirstIndex | mtools/evaluate.py:43-44 | the index of the first child with the tag, or None when no child has it |
| Xml.Find | mtools/evaluate.py:43-44 | `find` returns None iff no child has the tag, and otherwise the first child that has it |
| Xml.FindAll | mtools/evaluate.py:40 | `findall(tag)`: the direct children with the tag, in document order (properties in `Matching`, `MatchingSkips`, `MatchingKeepsAll`) |
| Xml.Matching | mtools/evaluate.py:40 | `findall` keeps only children with the tag, drawn from the children |
| Xml.MatchingSkips | mtools/evaluate.py:40 | a child with another tag does not change what `findall` returns |
| Xml.MatchingKeepsAll | mtools/evaluate.py:40 | when every child has the tag, `findall` returns all children in order |
| PyInt.TrimStart | mtools/evaluate.py:45 | the stripped text does not start with whitespace |
| PyInt.TrimEnd | mtools/evaluate.py:45 | the stripped text does not end with whitespace |
| PyInt.Digits | mtools/evaluate.py:45 | an integer's decimal form is a non-empty run of ASCII digits |
| PyInt.DigitsValueOfDigits | mtools/evaluate.py:45 | the digits of n read back as n |
| PyInt.ParseIntOfDecimalString | mtools/evaluate.py:45 | `int(str(n)) == n` for every integer n, negative ones included |
| PyInt.ParseIntPadded | mtools/evaluate.py:45 | `int` ignores whitespace on either side of the number |
| PyInt.ParseIntRejectsSeparator | mtools/evaluate.py:45 | `int()` fails on any text that starts or ends with one of the ASCII separators U+001C to U+001F, although `str.isspace()` holds for them |
| Evaluation.ParseAnswerXml | mtools/evaluate.py:38-46 | the loop returns the pairs of the Answer children in document order, or the first error raised |
| Evaluation.ParseAnswerElement | mtools/evaluate.py:43-45 | an Answer element round-trips to its identifier and selection |
| Evaluation.ParseAnswerDocument | mtools/evaluate.py:40-46 | a document of Answer elements parses to exactly its answers: one pair per element, in order |
| Evaluation.ParseAnswersIgnoresOthers | mtools/evaluate.py:40 | inserting a root child that is not an Answer anywhere leaves the result unchanged |
| Evaluation.ParseAnswerFailures | mtools/evaluate.py:43-45 | an Answer gives a pair exactly when its first QuestionIdentifier child has integer text and it has a SelectionIdentifier child; the pair is `int()` of that text and the text of the first SelectionIdentifier; no QuestionIdentifier, one without text, text that is not an integer and no SelectionIdentifier each raise their own error |
| Scoring.Increment | mtools/evaluate.py:115-120 | `d[k] += n` creates key k even when n is 0, adds n under k and keeps every other key |
| Scoring.RecordCounts | mtools/evaluate.py:112-120 | for one counted answer, each total rises by 1 and each correct count by 1 iff the selection equals the stored answer; other keys do not change |
| Scoring.AllSelected | mtools/evaluate.py:95-96 | true exactly when every answer's selection is the given letter (so true for no answers) |
| Scoring.SkipRule | mtools/evaluate.py:95-102 | an assignment that is all `a`, all `b` or empty leaves every counter unchanged; a counted one adds its (at least one) answers to its worker's total |
| Scoring.MapSumIncrement | mtools/evaluate.py:115-120 | `d[k] += n` raises the sum of a counter by n |
| Scoring.IncrementPaired | mtools/evaluate.py:115-120 | bumping a correct/total pair keeps equal key sets and 1 <= total, correct <= total |
| Scoring.RecordSums | mtools/evaluate.py:116-120 | counting one answer raises the dataset, worker and question sums of totals by one each |
| Scoring.RecordConsistent | mtools/evaluate.py:112-120 | counting one answer preserves the counter invariant |
| Scoring.TallyAnswersCounts | mtools/evaluate.py:106-120 | one assignment's answers raise each sum of totals and its worker's total by their number, and its worker's correct count by the number that match the key |
| Scoring.TallyAnswersConsistent | mtools/evaluate.py:105-120 | the inner loop preserves the counter invariant |
| Scoring.TallyAssignmentTotals | mtools/evaluate.py:92-120 | one pass of the outer loop keeps the counters consistent and adds the assignment's counted answers (none when skipped) to each sum of totals |
| Scoring.EvaluateTotals | mtools/evaluate.py:90-120 | after a successful run, correct <= total under every key, each pair has equal keys, and the dataset, worker and question sums of totals all equal the number of answers in assignments that were not skipped |
| Scoring.ReportHasNoZeroTotal | mtools/evaluate.py:122-127 | every key the report iterates over has a total of at least one, so no ratio divides by zero |
| Scoring.CountAnswers | mtools/evaluate.py:105-120 | the inner loop gives the counters `TallyAnswers` specifies, or the error for the first unknown question |
| Scoring.Evaluate | mtools/evaluate.py:90-120 | the outer loop gives the counters `EvaluateAll` specifies, or the first error raised |
| PyInt.ParseInt | mtools/evaluate.py:45 | base-ten `int(text)`: strip whitespace, an optional sign, then ASCII digits with single underscores between them; None where Python raises ValueError (properties in `ParseIntOfDecimalString`, `ParseIntPadded`, `ParseIntRejectsSeparator`) |
| Evaluation.ParseAnswer | mtools/evaluate.py:43-45 | one loop pass: both children looked up, then the identifier converted, then the selection's text taken (properties in `ParseAnswerFailures`, `ParseAnswerElement`) |
| Evaluation.ParseAnswers | mtools/evaluate.py:38-46 | `ParseAnswer` over `findall('mturk:Answer')`, stopping at the first error (properties in `ParseAnswerDocument`, `ParseAnswersIgnoresOthers`) |
| Scoring.Lookup | mtools/evaluate.py:115-120 | reading a `defaultdict(int)`: the stored count, or 0 for a key never touched |
| Scoring.Record | mtools/evaluate.py:112-120 | the six `+=` updates for one counted answer (properties in `RecordCounts`, `RecordSums`, `RecordConsistent`) |
| Scoring.NoVariability | mtools/evaluate.py:95-97 | the skip test: all answers `a` or all answers `b` (properties in `AllSelected`, `SkipRule`) |
| Scoring.CountAnswer | mtools/evaluate.py:107-120 | one answer of a counted assignment: `UnknownQuestion` when the `.one()` lookup finds no row, otherwise the six updates of `Record` with that row |
| Scoring.TallyAnswers | mtools/evaluate.py:105-120 | the inner loop over one assignment's answers, stopping at the first unknown question (properties in `TallyAnswersCounts`, `TallyAnswersConsistent`) |
| Scoring.TallyAssignment | mtools/evaluate.py:92-120 | one pass of the outer loop: parse, skip on no variability, otherwise count (properties in `SkipRule`) |
| Scoring.EvaluateAll | mtools/evaluate.py:90-120 | the counters after all assignments, or the first error (properties in `EvaluateTotals`, `ReportHasNoZeroTotal`) |
| QuestionForms.EmptyForm | mtools/question_form.py:7-13 | the new root: `QuestionForm` with `xmlns` set to the form namespace, no text, no children |
| QuestionForms.OverviewElement | mtools/question_form.py:15-20 | an Overview holding Title then Text with the given strings |
| QuestionForms.QuestionElement | mtools/question_form.py:22-39 | the fixed Question structure: QuestionIdentifier, IsRequired `true`, QuestionContent/Text `Choose one:`, AnswerSpecification/SelectionAnswer with StyleSuggestion `radiobutton` and then Selections holding the given selections |
| QuestionForms.SelectionElement | mtools/question_form.py:41-45 | one pass of the choice loop: a Selection holding the i-th lowercase letter as SelectionIdentifier, then Text with the choice (properties in `ChoiceInSelectionElement`) |
| QuestionForms.ChoiceSelections | mtools/question_form.py:40-45 | the children of Selections when the loop stops: one per choice where there are at most 26, the k-th holding letter k and choice k; otherwise the first 26 followed by the unfinished Selection (`UnfinishedSelection`: an empty SelectionIdentifier and no Text) left by the IndexError |
| QuestionForms.Appended | mtools/question_form.py:15-45 | the root child a call appends: its Overview, or its Question with `ChoiceSelections` of its choices |
| QuestionForms.CompleteSelections | mtools/question_form.py:40-45 | there are n selections, and the k-th holds identifier letter k and the k-th choice |
| QuestionForms.SelectionIdentifiersDistinct | mtools/question_form.py:43 | the identifier at position i is the letter 'a' + i, so different positions get different identifiers |
| QuestionForms.ChoiceInAppend | mtools/question_form.py:39-45 | looking up an identifier in appended selections finds the earlier match first |
| QuestionForms.ChoiceInSelectionElement | mtools/question_form.py:41-45 | a Selection element offers its choice under exactly its own identifier |
| QuestionForms.ChoiceInComplete | mtools/question_form.py:40-45 | among the first n selections, identifier i names choice i, and only those n identifiers name anything |
| QuestionForms.QuestionSelectsItsChoices | mtools/question_form.py:22-45 | in a built question, the identifier of each position that got one selects that position's choice; no other answer selects anything, the unfinished 27th selection included |
| QuestionForms.QuestionForm.constructor | mtools/question_form.py:7-13 | a new form is a root `QuestionForm` element with `xmlns` set to the form namespace and no children |
| QuestionForms.QuestionForm.AddOverview | mtools/question_form.py:15-20 | exactly one Overview child (Title, then Text) is appended; earlier children and the root itself are unchanged |
| QuestionForms.QuestionForm.AddMultipleChoiceQuestion | mtools/question_form.py:22-45 | exactly one Question child with the fixed structure and one Selection per choice is appended; the call fails iff there are more than 26 choices, and the partial Question stays in that case |

## Left out

- Network and MTurk calls are not modelled. `submitted_assignments` and its pagination, `reject_assignment` and `mtools/mturk.py` are foreign API calls, so the assignments are given as a sequence of (worker id, answer document) pairs.
- The database and `session_scope` (`mtools/db.py`) are not modelled. They are persistence, so the Question table is the map `Scoring.AnswerKey`.
- The HIT-type and HIT lookups at the start of `evaluate` are not modelled, because they only produce the HIT ids.
- A question whose instance or dataset row is missing is not modelled. In the source this raises AttributeError when the filename is read. The model takes the filename straight from the answer key.
- The printed ratios are not modelled, because they are floating-point divisions. The model keeps the integer counts, and `Scoring.ReportHasNoZeroTotal` shows that every division has a non-zero divisor. The progress `print` calls are output only.
- XML text parsing, serialisation and tail text are not modelled. `xml.fromstring` and `QuestionForm.tostring` are library calls, so the model works on the element tree.
- Element attributes other than the root's `xmlns` are not modelled. ElementTree's mutable, shared tree objects are modelled as one immutable root value that each method replaces.
- PyInt.ParseInt: does not accept non-ASCII decimal digits, which Python's `int()` does accept. It also has no length limit on the digit string, which newer Python versions impose. The whitespace it strips is the ASCII whitespace plus every non-ASCII `str.isspace()` character, as CPython's `int()` strips it.
- PyInt.TrimStart: states only that the result does not start with whitespace, not that it is a suffix of the input. The suffix fact is used through `TrimStartSkipsSpaces`.
- PyInt.TrimEnd: states only that the result does not end with whitespace, not that it is a prefix of the input. The prefix fact is used through `TrimEndSkipsSpaces`.
- The strings passed to the form builder are any text in the model. The source accepts any Python object as an element's text.
- `deploy` (`mtools/deploy.py`) is not modelled, because its body is empty. `mtools/io.py`, `mtools/cli.py`, `mtools/config.py`, `mtools/client.py` and `setup.py` are file I/O and configuration; they are not part of this model.
