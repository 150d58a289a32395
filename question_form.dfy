/** Building an MTurk QuestionForm document by appending elements to its root. */
module QuestionForms {
  import opened Wrappers
  import opened Xml

  /** The value of the root's `xmlns` attribute. */
  const DefaultNamespace := "http://mechanicalturk.amazonaws.com/AWSMechanicalTurkDataSchemas/2017-11-06/QuestionForm.xsd"

  /** Python's `string.ascii_lowercase`, which the i-th choice takes its identifier from. */
  const AsciiLowercase := "abcdefghijklmnopqrstuvwxyz"

  /** A call made on a form, successful or not. */
  datatype Call =
    | OverviewCall(title: string, text: string)
    | QuestionCall(questionIdentifier: string, choices: seq<string>)

  /** The root of a new form: no text and no children. */
  function EmptyForm(): Element
  {
    Element("QuestionForm", map["xmlns" := DefaultNamespace], None, [])
  }

  function OverviewElement(title: string, text: string): Element
  {
    Node("Overview", [Leaf("Title", title), Leaf("Text", text)])
  }

  /** The identifier of the choice at position i. */
  function SelectionIdentifier(i: nat): string
    requires i < |AsciiLowercase|
  {
    [AsciiLowercase[i]]
  }

  function SelectionElement(i: nat, choice: string): Element
    requires i < |AsciiLowercase|
  {
    Node("Selection", [Leaf("SelectionIdentifier", SelectionIdentifier(i)), Leaf("Text", choice)])
  }

  /** What the 27th pass of the loop leaves behind: its Selection and its
      SelectionIdentifier are attached before `ascii_lowercase[26]` raises, so
      the identifier has no text and there is no Text child. */
  const UnfinishedSelection := Node("Selection", [Node("SelectionIdentifier", [])])

  /** The Selection elements of the first n choices. */
  function CompleteSelections(choices: seq<string>, n: nat): (r: seq<Element>)
    requires n <= |choices| && n <= |AsciiLowercase|
    ensures |r| == n
    ensures forall k :: 0 <= k < n ==> r[k] == SelectionElement(k, choices[k])
  {
    if n == 0 then [] else CompleteSelections(choices, n - 1) + [SelectionElement(n - 1, choices[n - 1])]
  }

  /** The children of Selections once the loop has stopped, normally or by the
      IndexError at index 26. */
  function ChoiceSelections(choices: seq<string>): (r: seq<Element>)
    ensures |r| == if |choices| <= |AsciiLowercase| then |choices| else |AsciiLowercase| + 1
    ensures forall k :: 0 <= k < |choices| && k < |AsciiLowercase| ==> r[k] == SelectionElement(k, choices[k])
    ensures |choices| > |AsciiLowercase| ==> r[|AsciiLowercase|] == UnfinishedSelection
  {
    if |choices| <= |AsciiLowercase| then CompleteSelections(choices, |choices|)
    else CompleteSelections(choices, |AsciiLowercase|) + [UnfinishedSelection]
  }

  function QuestionElement(questionIdentifier: string, selections: seq<Element>): Element
  {
    Node("Question", [
      Leaf("QuestionIdentifier", questionIdentifier),
      Leaf("IsRequired", "true"),
      Node("QuestionContent", [Leaf("Text", "Choose one:")]),
      Node("AnswerSpecification", [
        Node("SelectionAnswer", [
          Leaf("StyleSuggestion", "radiobutton"),
          Node("Selections", selections)])])])
  }

  /** The root child that a call appends. */
  function Appended(c: Call): Element
  {
    match c
    case OverviewCall(title, text) => OverviewElement(title, text)
    case QuestionCall(id, choices) => QuestionElement(id, ChoiceSelections(choices))
  }

  // ---------------------------------------------------------------------------
  // Reading a built question back: which choice a selection identifier names

  /** The identifier and text a Selection element offers, when it has both. */
  function ReadSelection(e: Element): Option<(string, string)>
  {
    var id := Find(e, "SelectionIdentifier");
    var text := Find(e, "Text");
    if id.Some? && id.value.text.Some? && text.Some? && text.value.text.Some?
    then Some((id.value.text.value, text.value.text.value))
    else None
  }

  /** The text of the first of the selections whose identifier is `selection`. */
  function ChoiceIn(selections: seq<Element>, selection: string): Option<string>
  {
    if selections == [] then None
    else match ReadSelection(selections[0])
      case Some((id, text)) =>
        if id == selection then Some(text) else ChoiceIn(selections[1..], selection)
      case None => ChoiceIn(selections[1..], selection)
  }

  /** The choice that a worker's answer `selection` names in a Question element. */
  function SelectedChoice(question: Element, selection: string): Option<string>
  {
    match Find(question, "AnswerSpecification")
    case None => None
    case Some(specification) =>
      match Find(specification, "SelectionAnswer")
      case None => None
      case Some(answer) =>
        match Find(answer, "Selections")
        case None => None
        case Some(selections) => ChoiceIn(selections.children, selection)
  }

  /** The identifiers are consecutive letters from 'a', so no two positions share one. */
  lemma SelectionIdentifiersDistinct(i: nat, j: nat)
    requires i < |AsciiLowercase| && j < |AsciiLowercase| && i != j
    ensures SelectionIdentifier(i) != SelectionIdentifier(j)
    ensures AsciiLowercase[i] as int == 'a' as int + i
  {
  }

  lemma {:induction false} ChoiceInAppend(a: seq<Element>, b: seq<Element>, selection: string)
    ensures ChoiceIn(a + b, selection)
         == if ChoiceIn(a, selection).Some? then ChoiceIn(a, selection) else ChoiceIn(b, selection)
    decreases |a|
  {
    if a != [] {
      assert (a + b)[1..] == a[1..] + b;
      ChoiceInAppend(a[1..], b, selection);
    } else {
      assert a + b == b;
    }
  }

  lemma ChoiceInSelectionElement(i: nat, choice: string, selection: string)
    requires i < |AsciiLowercase|
    ensures ChoiceIn([SelectionElement(i, choice)], selection)
         == if selection == SelectionIdentifier(i) then Some(choice) else None
  {
    var e := SelectionElement(i, choice);
    assert Find(e, "SelectionIdentifier") == Some(e.children[0]);
    assert Find(e, "Text") == Some(e.children[1]);
    assert ReadSelection(e) == Some((SelectionIdentifier(i), choice));
    assert [e][1..] == [];
  }

  /** Among the first n selections, identifier i names choice i, and an
      identifier names something only if it is one of the first n. */
  lemma {:induction false} ChoiceInComplete(choices: seq<string>, n: nat, selection: string)
    requires n <= |choices| && n <= |AsciiLowercase|
    ensures forall i :: 0 <= i < n ==> ChoiceIn(CompleteSelections(choices, n), SelectionIdentifier(i)) == Some(choices[i])
    ensures ChoiceIn(CompleteSelections(choices, n), selection).Some? ==>
              exists i :: 0 <= i < n && selection == SelectionIdentifier(i)
    decreases n
  {
    if n > 0 {
      var init := CompleteSelections(choices, n - 1);
      var last := SelectionElement(n - 1, choices[n - 1]);
      assert CompleteSelections(choices, n) == init + [last];
      ChoiceInComplete(choices, n - 1, selection);
      ChoiceInSelectionElement(n - 1, choices[n - 1], selection);
      ChoiceInAppend(init, [last], selection);
      forall i | 0 <= i < n
        ensures ChoiceIn(CompleteSelections(choices, n), SelectionIdentifier(i)) == Some(choices[i])
      {
        ChoiceInAppend(init, [last], SelectionIdentifier(i));
        ChoiceInSelectionElement(n - 1, choices[n - 1], SelectionIdentifier(i));
        if i < n - 1 {
          assert ChoiceIn(init, SelectionIdentifier(i)) == Some(choices[i]);
          SelectionIdentifiersDistinct(i, n - 1);
        } else {
          assert ChoiceIn(init, SelectionIdentifier(i)) == None by {
            if ChoiceIn(init, SelectionIdentifier(i)).Some? {
              ChoiceInComplete(choices, n - 1, SelectionIdentifier(i));
              forall j | 0 <= j < n - 1
                ensures SelectionIdentifier(i) != SelectionIdentifier(j)
              {
                SelectionIdentifiersDistinct(i, j);
              }
            }
          }
        }
      }
    }
  }

  /** In a question built from `choices`, the identifier given to position i
      names the i-th choice, for every position that received one, and no
      other answer names any choice. With more than 26 choices the unfinished
      27th selection names nothing. */
  lemma QuestionSelectsItsChoices(questionIdentifier: string, choices: seq<string>, selection: string)
    ensures var q := QuestionElement(questionIdentifier, ChoiceSelections(choices));
      && (forall i :: 0 <= i < |choices| && i < |AsciiLowercase| ==>
            SelectedChoice(q, SelectionIdentifier(i)) == Some(choices[i]))
      && (SelectedChoice(q, selection).Some? ==>
            exists i :: 0 <= i < |choices| && i < |AsciiLowercase| && selection == SelectionIdentifier(i))
  {
    var q := QuestionElement(questionIdentifier, ChoiceSelections(choices));
    var specification := q.children[3];
    var answer := specification.children[0];
    var selections := answer.children[1];
    assert Find(q, "AnswerSpecification") == Some(specification);
    assert Find(specification, "SelectionAnswer") == Some(answer);
    assert Find(answer, "Selections") == Some(selections);
    var n := if |choices| <= |AsciiLowercase| then |choices| else |AsciiLowercase|;
    ChoiceInComplete(choices, n, selection);
    if |choices| > |AsciiLowercase| {
      assert ReadSelection(UnfinishedSelection) == None;
      ChoiceInAppend(CompleteSelections(choices, n), [UnfinishedSelection], selection);
      forall i | 0 <= i < n
        ensures ChoiceIn(selections.children, SelectionIdentifier(i)) == Some(choices[i])
      {
        ChoiceInAppend(CompleteSelections(choices, n), [UnfinishedSelection], SelectionIdentifier(i));
      }
    }
  }

  class QuestionForm {
    /** The root of `self.etree`. */
    var root: Element
    /** Every `add_*` call made so far, in order. */
    ghost var calls: seq<Call>

    /** The root stays the QuestionForm element, and its children are exactly
        one element per call made, in call order. */
    ghost predicate Valid()
      reads this
    {
      && root.tag == "QuestionForm"
      && root.attrib == map["xmlns" := DefaultNamespace]
      && root.text == None
      && |root.children| == |calls|
      && forall i :: 0 <= i < |calls| ==> root.children[i] == Appended(calls[i])
    }

    constructor ()
      ensures Valid()
      ensures root == EmptyForm() && calls == []
    {
      root := EmptyForm();
      calls := [];
    }

    /** `add_overview`: appends an Overview holding a Title and a Text. */
    method AddOverview(title: string, text: string)
      requires Valid()
      modifies this
      ensures Valid()
      ensures calls == old(calls) + [OverviewCall(title, text)]
      ensures root == old(root).(children := old(root).children + [OverviewElement(title, text)])
    {
      root := root.(children := root.children + [OverviewElement(title, text)]);
      calls := calls + [OverviewCall(title, text)];
    }

    /** `add_multiple_choice_question`: appends a Question, then one Selection
        per choice. Returns false where the source raises IndexError (more than
        26 choices); the Question is in the tree by then, with the selections
        built so far. */
    method AddMultipleChoiceQuestion(questionIdentifier: string, choices: seq<string>) returns (ok: bool)
      requires Valid()
      modifies this
      ensures Valid()
      ensures ok <==> |choices| <= |AsciiLowercase|
      ensures calls == old(calls) + [QuestionCall(questionIdentifier, choices)]
      ensures root == old(root).(children := old(root).children
                                   + [QuestionElement(questionIdentifier, ChoiceSelections(choices))])
    {
      var earlier := root.children;
      var selections: seq<Element> := [];
      root := root.(children := earlier + [QuestionElement(questionIdentifier, selections)]);
      calls := calls + [QuestionCall(questionIdentifier, choices)];
      for i := 0 to |choices|
        invariant i <= |AsciiLowercase|
        invariant selections == CompleteSelections(choices, i)
        invariant root == old(root).(children := earlier + [QuestionElement(questionIdentifier, selections)])
        invariant calls == old(calls) + [QuestionCall(questionIdentifier, choices)]
      {
        if i == |AsciiLowercase| {
          selections := selections + [UnfinishedSelection];
          root := root.(children := earlier + [QuestionElement(questionIdentifier, selections)]);
          return false;
        }
        selections := selections + [SelectionElement(i, choices[i])];
        root := root.(children := earlier + [QuestionElement(questionIdentifier, selections)]);
      }
      ok := true;
    }
  }
}
