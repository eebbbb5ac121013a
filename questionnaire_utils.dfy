/** Checks of a questionnaire response against its question tree, and the
    flattening of the answers into observation records. The parsers of
    numbers, dates and times, the value-set lookup, `uuid4()` and `now()`
    are supplied from outside: the parsers and the lookup as the functions
    of an `Env`, the fresh ids as a counter, the time as a number. */
module QuestionnaireUtils {
  import opened Wrappers
  import Strings

  // ---------------------------------------------------------------------
  // The question tree and the submitted answers
  // ---------------------------------------------------------------------

  datatype QuestionType =
    | Group | Boolean | Decimal | Integer | String | Text | Display
    | Date | DateTime | Time | Url | Structured | Choice | Quantity

  /** The type's wire name, which error messages quote. */
  function TypeName(t: QuestionType): string {
    match t
    case Group => "group"
    case Boolean => "boolean"
    case Decimal => "decimal"
    case Integer => "integer"
    case String => "string"
    case Text => "text"
    case Display => "display"
    case Date => "date"
    case DateTime => "dateTime"
    case Time => "time"
    case Url => "url"
    case Structured => "structured"
    case Choice => "choice"
    case Quantity => "quantity"
  }

  datatype Coding = Coding(system: string, code: string)
  datatype QuantityValue = QuantityValue(value: string, code: Option<Coding>)

  /** One submitted value; each part may be missing. */
  datatype ResponseValue = ResponseValue(value: Option<string>, valueCode: Option<Coding>, valueQuantity: Option<QuantityValue>)

  /** The answer to one question. */
  datatype QuestionResponse = QuestionResponse(questionId: string, values: seq<ResponseValue>, note: Option<string>)

  /** A question; a group holds its child questions. `answerValueSet`,
      `code` and `category` are `None` when the key is absent. */
  datatype Question = Question(
    id: string,
    qtype: QuestionType,
    required: bool,
    repeats: bool,
    answerValueSet: Option<string>,
    code: Option<Coding>,
    category: Option<Coding>,
    questions: seq<Question>)

  /** Python truthiness of an optional string. */
  predicate Truthy(s: Option<string>) {
    s.Some? && s.value != ""
  }

  /** What a parser does with a text: accepts it, raises `ValueError`, or
      raises some other exception. */
  datatype ParseOutcome = Parsed | ParseValueError | ParseOtherError

  /** The foreign code the checks call: `int()`, `float()`, the date and
      time parsers (by question type), and the value-set membership test
      (`false` where `validate_valueset` raises `ValueError`). */
  datatype Env = Env(parse: (QuestionType, string) -> ParseOutcome, inValueSet: (string, Option<Coding>) -> bool)

  // ---------------------------------------------------------------------
  // `check_required`
  // ---------------------------------------------------------------------

  /** What `questionnaire_mapping` keeps of a group: its own `required`
      flag and the `parent` set when the walk reached it. */
  datatype MappedGroup = MappedGroup(required: bool, parent: Option<string>)

  /** `check_required` on a question with the given flag and parent.
      `None` when the source raises: a parent id missing from the mapping
      (`KeyError`), or a chain of parents still not finished after `fuel`
      steps (a chain that cycles back, which the source follows until its
      recursion limit). */
  function CheckRequired(required: bool, parent: Option<string>, mapping: map<string, MappedGroup>, fuel: nat): Option<bool>
    decreases fuel
  {
    if required then Some(true)
    else if !Truthy(parent) then Some(false)
    else if parent.value !in mapping then None
    else if fuel == 0 then None
    else CheckRequired(mapping[parent.value].required, mapping[parent.value].parent, mapping, fuel - 1)
  }

  /** The fuel the walk gives `check_required`: one more step than there are
      groups in the mapping. */
  function RequiredFuel(mapping: map<string, MappedGroup>): nat {
    |mapping| + 1
  }

  /** The `k`-th group up the chain of parents (0 is the parent itself), as
      long as every link before it is set and found in the mapping. */
  function Ancestor(parent: Option<string>, mapping: map<string, MappedGroup>, k: nat): Option<MappedGroup>
    decreases k
  {
    if !Truthy(parent) || parent.value !in mapping then None
    else if k == 0 then Some(mapping[parent.value])
    else Ancestor(mapping[parent.value].parent, mapping, k - 1)
  }

  /** Some group among the first `fuel` up the chain is required. */
  predicate RequiredAncestorWithin(parent: Option<string>, mapping: map<string, MappedGroup>, fuel: nat) {
    exists k :: 0 <= k < fuel && Ancestor(parent, mapping, k).Some? && Ancestor(parent, mapping, k).value.required
  }

  /** `check_required` answers true exactly when the question or one of the
      first `fuel` groups up its chain is required. */
  lemma {:induction false} CheckRequiredTrueIff(required: bool, parent: Option<string>, mapping: map<string, MappedGroup>, fuel: nat)
    ensures CheckRequired(required, parent, mapping, fuel) == Some(true) <==>
      required || RequiredAncestorWithin(parent, mapping, fuel)
    decreases fuel
  {
    if !required && Truthy(parent) && parent.value in mapping && fuel > 0 {
      var g := mapping[parent.value];
      CheckRequiredTrueIff(g.required, g.parent, mapping, fuel - 1);
      assert Ancestor(parent, mapping, 0) == Some(g);
      if RequiredAncestorWithin(parent, mapping, fuel) && !g.required {
        var k :| 0 <= k < fuel && Ancestor(parent, mapping, k).Some? && Ancestor(parent, mapping, k).value.required;
        assert Ancestor(g.parent, mapping, k - 1) == Ancestor(parent, mapping, k);
        assert RequiredAncestorWithin(g.parent, mapping, fuel - 1);
      }
      if RequiredAncestorWithin(g.parent, mapping, fuel - 1) {
        var k :| 0 <= k < fuel - 1 && Ancestor(g.parent, mapping, k).Some? && Ancestor(g.parent, mapping, k).value.required;
        assert Ancestor(parent, mapping, k + 1) == Ancestor(g.parent, mapping, k);
      }
    }
  }

  /** `check_required` answers false only after reaching the top of the
      chain, no group on the way being required. */
  lemma {:induction false} CheckRequiredFalse(required: bool, parent: Option<string>, mapping: map<string, MappedGroup>, fuel: nat, k: nat)
    requires CheckRequired(required, parent, mapping, fuel) == Some(false)
    ensures !required
    ensures Ancestor(parent, mapping, k).Some? ==> !Ancestor(parent, mapping, k).value.required
    decreases fuel
  {
    if Truthy(parent) && parent.value in mapping && k > 0 {
      var g := mapping[parent.value];
      CheckRequiredFalse(g.required, g.parent, mapping, fuel - 1, k - 1);
    }
  }

  /** Every parent recorded in the mapping is itself a key of it. */
  predicate ParentsClosed(mapping: map<string, MappedGroup>) {
    forall id :: id in mapping && Truthy(mapping[id].parent) ==> mapping[id].parent.value in mapping
  }

  predicate ParentKnown(parent: Option<string>, mapping: map<string, MappedGroup>) {
    !Truthy(parent) || parent.value in mapping
  }

  /** In a closed mapping `check_required` never meets a missing key: when
      it gives up, the chain holds `fuel + 1` groups, none of them required.
      With `RequiredFuel` that is more links than the mapping has keys, so
      the chain repeats a group and the source recursion never ends. */
  lemma {:induction false} CheckRequiredGivesUp(required: bool, parent: Option<string>, mapping: map<string, MappedGroup>, fuel: nat)
    requires ParentsClosed(mapping) && ParentKnown(parent, mapping)
    requires CheckRequired(required, parent, mapping, fuel).None?
    ensures !required
    ensures forall k :: 0 <= k <= fuel ==> Ancestor(parent, mapping, k).Some?
    ensures forall k :: 0 <= k < fuel ==> !Ancestor(parent, mapping, k).value.required
    decreases fuel
  {
    if fuel > 0 {
      var g := mapping[parent.value];
      CheckRequiredGivesUp(g.required, g.parent, mapping, fuel - 1);
      forall k | 0 < k <= fuel
        ensures Ancestor(parent, mapping, k) == Ancestor(g.parent, mapping, k - 1)
      {
      }
    }
  }

  // ---------------------------------------------------------------------
  // `validate_data`
  // ---------------------------------------------------------------------

  /** The texts a boolean answer may lower-case to. */
  const BooleanWords: seq<string> := ["true", "false", "1", "0"]

  /** The error one present value of type `t` yields, if any. */
  function ValueError(t: QuestionType, v: string, env: Env): Option<string> {
    match t
    case Integer | Decimal | Date | DateTime | Time =>
      (match env.parse(t, v)
       case Parsed => None
       case ParseValueError => Some("Invalid " + TypeName(t))
       case ParseOtherError => Some("Error validating " + TypeName(t)))
    case Boolean =>
      if Strings.Lower(v) in BooleanWords then None else Some("Invalid boolean value: " + v)
    case _ => None
  }

  /** The errors of one submitted value: none when its `value` is missing. */
  function ValueErrors(t: QuestionType, rv: ResponseValue, env: Env): seq<string> {
    if rv.value.None? then []
    else if ValueError(t, rv.value.value, env).Some? then [ValueError(t, rv.value.value, env).value]
    else []
  }

  /** `validate_data`: the errors of the values, in order. */
  function DataErrors(values: seq<ResponseValue>, t: QuestionType, env: Env): seq<string> {
    if values == [] then []
    else DataErrors(values[..|values| - 1], t, env) + ValueErrors(t, values[|values| - 1], env)
  }

  /** `validate_data`'s loop. */
  method ValidateData(values: seq<ResponseValue>, t: QuestionType, env: Env) returns (errors: seq<string>)
    ensures errors == DataErrors(values, t, env)
  {
    errors := [];
    if values == [] {
      return;
    }
    for i := 0 to |values|
      invariant errors == DataErrors(values[..i], t, env)
    {
      assert values[..i + 1][..i] == values[..i];
      if values[i].value.None? {
        continue;
      }
      var e := ValueError(t, values[i].value.value, env);
      if e.Some? {
        errors := errors + [e.value];
      }
    }
    assert values[..|values|] == values;
  }

  /** At most one error per value; a list of missing values yields none. */
  lemma {:induction false} DataErrorsBound(values: seq<ResponseValue>, t: QuestionType, env: Env)
    ensures |DataErrors(values, t, env)| <= |values|
    ensures (forall i :: 0 <= i < |values| ==> values[i].value.None?) ==> DataErrors(values, t, env) == []
    decreases |values|
  {
    if values != [] {
      var init := values[..|values| - 1];
      assert forall i :: 0 <= i < |init| ==> init[i] == values[i];
      DataErrorsBound(init, t, env);
    }
  }

  /** Only integer, decimal, boolean, date, dateTime and time answers are
      type-checked. */
  lemma {:induction false} UncheckedTypesAccepted(values: seq<ResponseValue>, t: QuestionType, env: Env)
    requires t !in {Integer, Decimal, Boolean, Date, DateTime, Time}
    ensures DataErrors(values, t, env) == []
    decreases |values|
  {
    if values != [] {
      UncheckedTypesAccepted(values[..|values| - 1], t, env);
    }
  }

  /** A boolean answer is accepted exactly when it lower-cases to one of
      "true", "false", "1", "0"; otherwise its error quotes it. */
  lemma BooleanAnswer(v: string, env: Env)
    ensures DataErrors([ResponseValue(Some(v), None, None)], Boolean, env) ==
      (if Strings.Lower(v) in BooleanWords then [] else ["Invalid boolean value: " + v])
  {
    var one := [ResponseValue(Some(v), None, None)];
    assert one[..0] == [];
  }

  // ---------------------------------------------------------------------
  // The errors of one answered question
  // ---------------------------------------------------------------------

  /** The error records the walk appends. */
  datatype QuestionError =
    | NotAnswered(questionId: string)
    | Reported(kind: string, questionId: string, msg: string)

  const ValuesMissingMsg := "No value provided for question"
  const CodingRequiredMsg := "Coding is required"
  const QuantityRequiredMsg := "Quantity is required"
  const NotInValueSetMsg := "Coding does not belong to the valueset"

  function TypeErrors(id: string, msgs: seq<string>): (r: seq<QuestionError>)
    ensures |r| == |msgs|
    ensures forall i :: 0 <= i < |r| ==> r[i] == Reported("type_error", id, msgs[i])
  {
    if msgs == [] then [] else TypeErrors(id, msgs[..|msgs| - 1]) + [Reported("type_error", id, msgs[|msgs| - 1])]
  }

  /** The coding loop of a choice question: a value without a coding ends
      the loop with "Coding is required"; a coding outside the value set
      adds a `valueset_error`. */
  function CodingErrors(id: string, valueSet: Option<string>, values: seq<ResponseValue>, env: Env): seq<QuestionError> {
    if values == [] then []
    else if values[0].valueCode.None? then [Reported("type_error", id, CodingRequiredMsg)]
    else
      (if valueSet.Some? && !env.inValueSet(valueSet.value, values[0].valueCode)
       then [Reported("valueset_error", id, NotInValueSetMsg)] else [])
      + CodingErrors(id, valueSet, values[1..], env)
  }

  /** The quantity loop, the same with "Quantity is required" and the
      quantity's own coding. */
  function QuantityErrors(id: string, valueSet: Option<string>, values: seq<ResponseValue>, env: Env): seq<QuestionError> {
    if values == [] then []
    else if values[0].valueQuantity.None? then [Reported("type_error", id, QuantityRequiredMsg)]
    else
      (if valueSet.Some? && !env.inValueSet(valueSet.value, values[0].valueQuantity.value.code)
       then [Reported("valueset_error", id, NotInValueSetMsg)] else [])
      + QuantityErrors(id, valueSet, values[1..], env)
  }

  /** The values that are checked: only the first one of a repeating
      question. */
  function CheckedValues(q: Question, values: seq<ResponseValue>): seq<ResponseValue> {
    if q.repeats then values[..if |values| < 1 then |values| else 1] else values
  }

  /** Type errors, then the coding or quantity errors, of an answered
      question's values. */
  function AnswerErrors(q: Question, values: seq<ResponseValue>, env: Env): seq<QuestionError> {
    var vs := CheckedValues(q, values);
    TypeErrors(q.id, DataErrors(vs, q.qtype, env))
    + (if q.qtype == Choice && Truthy(q.answerValueSet) then CodingErrors(q.id, q.answerValueSet, vs, env) else [])
    + (if q.qtype == Quantity then QuantityErrors(q.id, q.answerValueSet, vs, env) else [])
  }

  /** A coding loop stops at the first value without a coding: everything
      before it can only be a `valueset_error`, and "Coding is required"
      comes last. */
  lemma {:induction false} CodingErrorsStop(id: string, valueSet: Option<string>, values: seq<ResponseValue>, env: Env, i: nat)
    requires i < |values| && values[i].valueCode.None?
    requires forall j :: 0 <= j < i ==> values[j].valueCode.Some?
    ensures CodingErrors(id, valueSet, values, env) ==
      CodingErrors(id, valueSet, values[..i], env) + [Reported("type_error", id, CodingRequiredMsg)]
    ensures forall e :: e in CodingErrors(id, valueSet, values[..i], env) ==> e == Reported("valueset_error", id, NotInValueSetMsg)
    decreases i
  {
    if i > 0 {
      assert values[1..][..i - 1] == values[..i][1..];
      CodingErrorsStop(id, valueSet, values[1..], env, i - 1);
    }
  }

  /** The same for a quantity question. */
  lemma {:induction false} QuantityErrorsStop(id: string, valueSet: Option<string>, values: seq<ResponseValue>, env: Env, i: nat)
    requires i < |values| && values[i].valueQuantity.None?
    requires forall j :: 0 <= j < i ==> values[j].valueQuantity.Some?
    ensures QuantityErrors(id, valueSet, values, env) ==
      QuantityErrors(id, valueSet, values[..i], env) + [Reported("type_error", id, QuantityRequiredMsg)]
    ensures forall e :: e in QuantityErrors(id, valueSet, values[..i], env) ==> e == Reported("valueset_error", id, NotInValueSetMsg)
    decreases i
  {
    if i > 0 {
      assert values[1..][..i - 1] == values[..i][1..];
      QuantityErrorsStop(id, valueSet, values[1..], env, i - 1);
    }
  }

  /** A repeating question checks its first value only: the others never
      change its errors, and it gets at most two (a type error and a coding
      or quantity error). */
  lemma RepeatsCheckFirstOnly(q: Question, values: seq<ResponseValue>, env: Env)
    requires q.repeats && values != []
    ensures AnswerErrors(q, values, env) == AnswerErrors(q, [values[0]], env)
    ensures |AnswerErrors(q, values, env)| <= 2
  {
    var one := [values[0]];
    assert values[..1] == one;
    assert one[..1] == one;
    assert CheckedValues(q, values) == CheckedValues(q, one) == one;
    DataErrorsBound(one, q.qtype, env);
    assert one[1..] == [];
    assert |CodingErrors(q.id, q.answerValueSet, one, env)| <= 1;
    assert |QuantityErrors(q.id, q.answerValueSet, one, env)| <= 1;
  }

  /** With no values there is nothing to type-check. */
  lemma NoValuesNoErrors(q: Question, env: Env)
    ensures AnswerErrors(q, [], env) == []
  {
    assert CheckedValues(q, []) == [];
  }

  // ---------------------------------------------------------------------
  // `validate_question_result`: the walk over the tree
  // ---------------------------------------------------------------------

  /** What the walk changes: the shared error list, the mapping of groups,
      and whether an exception has ended it. */
  datatype WalkState = WalkState(errors: seq<QuestionError>, mapping: map<string, MappedGroup>, raised: bool)

  /** `validate_question_result` on one question reached with `parent`. */
  function WalkQuestion(q: Question, responses: map<string, QuestionResponse>, parent: Option<string>,
                        st: WalkState, env: Env): WalkState
    decreases q
  {
    if st.raised || q.qtype == Structured then st
    else if q.qtype == Group then
      WalkList(q.questions, responses, Some(q.id), st.(mapping := st.mapping[q.id := MappedGroup(q.required, parent)]), env)
    else if q.id !in responses then
      if q.required then st.(errors := st.errors + [NotAnswered(q.id)]) else st
    else
      match AnswerOutcome(q, responses[q.id].values, parent, st.mapping, env)
      case None => st.(raised := true)
      case Some(es) => st.(errors := st.errors + es)
  }

  /** The errors of an answered question, or `None` when `check_required`
      raises. Empty values under a required chain give `values_missing` and
      end the checks. */
  function AnswerOutcome(q: Question, values: seq<ResponseValue>, parent: Option<string>,
                         mapping: map<string, MappedGroup>, env: Env): Option<seq<QuestionError>>
  {
    if values == [] then
      match CheckRequired(q.required, parent, mapping, RequiredFuel(mapping))
      case None => None
      case Some(true) => Some([Reported("values_missing", q.id, ValuesMissingMsg)])
      case Some(false) => Some(AnswerErrors(q, values, env))
    else Some(AnswerErrors(q, values, env))
  }

  /** The walk over sibling questions, in order. */
  function WalkList(qs: seq<Question>, responses: map<string, QuestionResponse>, parent: Option<string>,
                    st: WalkState, env: Env): WalkState
    decreases qs
  {
    if qs == [] then st
    else WalkQuestion(qs[|qs| - 1], responses, parent, WalkList(qs[..|qs| - 1], responses, parent, st, env), env)
  }

  /** A question and, for a group, all questions below it, in walk order. */
  function Flatten(q: Question): seq<Question>
    decreases q
  {
    if q.qtype == Group then [q] + FlattenList(q.questions) else [q]
  }

  function FlattenList(qs: seq<Question>): seq<Question>
    decreases qs
  {
    if qs == [] then [] else FlattenList(qs[..|qs| - 1]) + Flatten(qs[|qs| - 1])
  }

  /** An error names an answerable question of the tree: "Question not
      answered" only a required one missing from the responses, every other
      error one that was answered. */
  predicate Attributed(e: QuestionError, qs: seq<Question>, responses: map<string, QuestionResponse>) {
    exists x :: x in qs && x.id == e.questionId && x.qtype != Group && x.qtype != Structured &&
      (e.NotAnswered? ==> x.required && x.id !in responses) &&
      (e.Reported? ==> x.id in responses)
  }

  /** A required, answerable question that the responses leave out. */
  predicate Unanswered(x: Question, responses: map<string, QuestionResponse>) {
    x.required && x.qtype != Group && x.qtype != Structured && x.id !in responses
  }

  /** The errors an answered question gets all carry its id, and none is
      "Question not answered". */
  lemma AnswerOutcomeNamesQuestion(q: Question, values: seq<ResponseValue>, parent: Option<string>,
                                   mapping: map<string, MappedGroup>, env: Env)
    requires AnswerOutcome(q, values, parent, mapping, env).Some?
    ensures forall e :: e in AnswerOutcome(q, values, parent, mapping, env).value ==> e.Reported? && e.questionId == q.id
  {
    var vs := CheckedValues(q, values);
    CodingErrorsName(q.id, q.answerValueSet, vs, env);
    QuantityErrorsName(q.id, q.answerValueSet, vs, env);
  }

  lemma {:induction false} CodingErrorsName(id: string, valueSet: Option<string>, values: seq<ResponseValue>, env: Env)
    ensures forall e :: e in CodingErrors(id, valueSet, values, env) ==> e.Reported? && e.questionId == id
    decreases |values|
  {
    if values != [] && values[0].valueCode.Some? {
      CodingErrorsName(id, valueSet, values[1..], env);
    }
  }

  lemma {:induction false} QuantityErrorsName(id: string, valueSet: Option<string>, values: seq<ResponseValue>, env: Env)
    ensures forall e :: e in QuantityErrors(id, valueSet, values, env) ==> e.Reported? && e.questionId == id
    decreases |values|
  {
    if values != [] && values[0].valueQuantity.Some? {
      QuantityErrorsName(id, valueSet, values[1..], env);
    }
  }

  /** The walk only appends errors, only adds groups to the mapping, stops
      for good once an exception is raised, and every error it appends is
      attributed to a question of the walked tree. Conversely, every
      required question of the tree missing from the responses ends up
      reported as "Question not answered", unless an exception ended the
      walk. */
  lemma {:induction false} WalkQuestionFacts(q: Question, responses: map<string, QuestionResponse>, parent: Option<string>,
                                             st: WalkState, env: Env)
    ensures var st' := WalkQuestion(q, responses, parent, st, env);
      st.errors <= st'.errors && st.mapping.Keys <= st'.mapping.Keys && (st.raised ==> st' == st) &&
      forall i :: |st.errors| <= i < |st'.errors| ==> Attributed(st'.errors[i], Flatten(q), responses)
    ensures var st' := WalkQuestion(q, responses, parent, st, env);
      forall x :: x in Flatten(q) && Unanswered(x, responses) ==> NotAnswered(x.id) in st'.errors || st'.raised
    decreases q
  {
    var st' := WalkQuestion(q, responses, parent, st, env);
    if st.raised || q.qtype == Structured {
    } else if q.qtype == Group {
      var st1 := st.(mapping := st.mapping[q.id := MappedGroup(q.required, parent)]);
      WalkListFacts(q.questions, responses, Some(q.id), st1, env);
      forall i | |st.errors| <= i < |st'.errors| ensures Attributed(st'.errors[i], Flatten(q), responses) {
        var e := st'.errors[i];
        var x :| x in FlattenList(q.questions) && x.id == e.questionId && x.qtype != Group && x.qtype != Structured &&
          (e.NotAnswered? ==> x.required && x.id !in responses) && (e.Reported? ==> x.id in responses);
        assert x in Flatten(q);
      }
    } else if q.id !in responses {
      assert q in Flatten(q);
    } else {
      AnsweredAttributed(q, responses, parent, st, env);
    }
    if !st.raised && q.qtype != Group && q.qtype != Structured && q.id !in responses && q.required {
      assert st'.errors[|st.errors|] == NotAnswered(q.id);
    }
  }

  lemma AnsweredAttributed(q: Question, responses: map<string, QuestionResponse>, parent: Option<string>,
                           st: WalkState, env: Env)
    requires !st.raised && q.qtype != Structured && q.qtype != Group && q.id in responses
    ensures var st' := WalkQuestion(q, responses, parent, st, env);
      st.errors <= st'.errors && st.mapping == st'.mapping &&
      forall i :: |st.errors| <= i < |st'.errors| ==> Attributed(st'.errors[i], Flatten(q), responses)
  {
    var outcome := AnswerOutcome(q, responses[q.id].values, parent, st.mapping, env);
    var st' := WalkQuestion(q, responses, parent, st, env);
    if outcome.Some? {
      AnswerOutcomeNamesQuestion(q, responses[q.id].values, parent, st.mapping, env);
      assert Flatten(q) == [q];
      assert st'.errors == st.errors + outcome.value;
      forall i | |st.errors| <= i < |st'.errors| ensures Attributed(st'.errors[i], Flatten(q), responses) {
        assert st'.errors[i] == outcome.value[i - |st.errors|];
        assert st'.errors[i] in outcome.value;
      }
    }
  }

  lemma {:induction false} WalkListFacts(qs: seq<Question>, responses: map<string, QuestionResponse>, parent: Option<string>,
                                         st: WalkState, env: Env)
    ensures var st' := WalkList(qs, responses, parent, st, env);
      st.errors <= st'.errors && st.mapping.Keys <= st'.mapping.Keys && (st.raised ==> st' == st) &&
      forall i :: |st.errors| <= i < |st'.errors| ==> Attributed(st'.errors[i], FlattenList(qs), responses)
    ensures var st' := WalkList(qs, responses, parent, st, env);
      forall x :: x in FlattenList(qs) && Unanswered(x, responses) ==> NotAnswered(x.id) in st'.errors || st'.raised
    decreases qs
  {
    if qs != [] {
      var init := qs[..|qs| - 1];
      var mid := WalkList(init, responses, parent, st, env);
      var st' := WalkList(qs, responses, parent, st, env);
      WalkListFacts(init, responses, parent, st, env);
      WalkQuestionFacts(qs[|qs| - 1], responses, parent, mid, env);
      forall x | x in FlattenList(qs) && Unanswered(x, responses)
        ensures NotAnswered(x.id) in st'.errors || st'.raised
      {
        if x in FlattenList(init) && NotAnswered(x.id) in mid.errors {
          var i :| 0 <= i < |mid.errors| && mid.errors[i] == NotAnswered(x.id);
          assert st'.errors[i] == mid.errors[i];
        }
      }
      forall i | |st.errors| <= i < |st'.errors| ensures Attributed(st'.errors[i], FlattenList(qs), responses) {
        var e := st'.errors[i];
        if i < |mid.errors| {
          assert e == mid.errors[i];
          var x :| x in FlattenList(init) && x.id == e.questionId && x.qtype != Group && x.qtype != Structured &&
            (e.NotAnswered? ==> x.required && x.id !in responses) && (e.Reported? ==> x.id in responses);
          assert x in FlattenList(qs);
        } else {
          var x :| x in Flatten(qs[|qs| - 1]) && x.id == e.questionId && x.qtype != Group && x.qtype != Structured &&
            (e.NotAnswered? ==> x.required && x.id !in responses) && (e.Reported? ==> x.id in responses);
          assert x in FlattenList(qs);
        }
      }
    }
  }

  /** The mapping stays closed under parents, so `check_required` never
      meets a missing key (see `CheckRequiredGivesUp`). */
  lemma {:induction false} WalkQuestionKeepsParentsClosed(q: Question, responses: map<string, QuestionResponse>, parent: Option<string>,
                                                          st: WalkState, env: Env)
    requires ParentsClosed(st.mapping) && ParentKnown(parent, st.mapping)
    ensures ParentsClosed(WalkQuestion(q, responses, parent, st, env).mapping)
    decreases q
  {
    if !st.raised && q.qtype == Group {
      var st1 := st.(mapping := st.mapping[q.id := MappedGroup(q.required, parent)]);
      WalkListKeepsParentsClosed(q.questions, responses, Some(q.id), st1, env);
    }
  }

  lemma {:induction false} WalkListKeepsParentsClosed(qs: seq<Question>, responses: map<string, QuestionResponse>, parent: Option<string>,
                                                      st: WalkState, env: Env)
    requires ParentsClosed(st.mapping) && ParentKnown(parent, st.mapping)
    ensures ParentsClosed(WalkList(qs, responses, parent, st, env).mapping)
    decreases qs
  {
    if qs != [] {
      var init := qs[..|qs| - 1];
      var mid := WalkList(init, responses, parent, st, env);
      WalkListKeepsParentsClosed(init, responses, parent, st, env);
      WalkListFacts(init, responses, parent, st, env);
      WalkQuestionKeepsParentsClosed(qs[|qs| - 1], responses, parent, mid, env);
    }
  }

  /** An answered question with no values: one `values_missing` error and
      nothing else when the question or a group above it is required,
      otherwise no error at all. */
  lemma EmptyAnswerOutcome(q: Question, parent: Option<string>, mapping: map<string, MappedGroup>, env: Env)
    requires CheckRequired(q.required, parent, mapping, RequiredFuel(mapping)).Some?
    ensures AnswerOutcome(q, [], parent, mapping, env) ==
      Some(if q.required || RequiredAncestorWithin(parent, mapping, RequiredFuel(mapping))
           then [Reported("values_missing", q.id, ValuesMissingMsg)] else [])
  {
    CheckRequiredTrueIff(q.required, parent, mapping, RequiredFuel(mapping));
    NoValuesNoErrors(q, env);
  }

  /** The walker: the shared `errors` list and `questionnaire_mapping`. */
  class ResponseValidation {
    var errors: seq<QuestionError>
    var mapping: map<string, MappedGroup>
    /** Set once `check_required` raises; the exception unwinds the rest. */
    var raised: bool

    constructor()
      ensures errors == [] && mapping == map[] && !raised
    {
      errors := [];
      mapping := map[];
      raised := false;
    }

    function State(): WalkState
      reads this
    {
      WalkState(errors, mapping, raised)
    }

    /** `validate_question_result(q, responses, errors, parent, mapping)`. */
    method ValidateQuestionResult(q: Question, responses: map<string, QuestionResponse>, parent: Option<string>, env: Env)
      modifies this
      ensures State() == WalkQuestion(q, responses, parent, old(State()), env)
      decreases q
    {
      if raised || q.qtype == Structured {
        return;
      }
      if q.qtype == Group {
        mapping := mapping[q.id := MappedGroup(q.required, parent)];
        ghost var start := State();
        for i := 0 to |q.questions|
          invariant State() == WalkList(q.questions[..i], responses, Some(q.id), start, env)
        {
          assert q.questions[..i + 1][..i] == q.questions[..i];
          ValidateQuestionResult(q.questions[i], responses, Some(q.id), env);
        }
        assert q.questions[..|q.questions|] == q.questions;
        return;
      }
      if q.id !in responses {
        if q.required {
          errors := errors + [NotAnswered(q.id)];
        }
        return;
      }
      var outcome := CheckAnswer(q, responses[q.id].values, parent, mapping, env);
      if outcome.None? {
        raised := true;
      } else {
        errors := errors + outcome.value;
      }
    }
  }

  /** The answered-question part of `validate_question_result`. */
  method CheckAnswer(q: Question, values: seq<ResponseValue>, parent: Option<string>,
                     mapping: map<string, MappedGroup>, env: Env) returns (r: Option<seq<QuestionError>>)
    ensures r == AnswerOutcome(q, values, parent, mapping, env)
  {
    if values == [] {
      var req := CheckRequired(q.required, parent, mapping, RequiredFuel(mapping));
      if req.None? {
        return None;
      }
      if req.value {
        return Some([Reported("values_missing", q.id, ValuesMissingMsg)]);
      }
    }
    var checked := CheckedValues(q, values);
    var typeErrors := ValidateData(checked, q.qtype, env);
    var codingErrors: seq<QuestionError> := [];
    var quantityErrors: seq<QuestionError> := [];
    if q.qtype == Choice && Truthy(q.answerValueSet) {
      codingErrors := CheckCodings(q.id, q.answerValueSet, checked, env);
    }
    if q.qtype == Quantity {
      quantityErrors := CheckQuantities(q.id, q.answerValueSet, checked, env);
    }
    return Some(TypeErrors(q.id, typeErrors) + codingErrors + quantityErrors);
  }

  /** The coding loop of `validate_question_result`. */
  method CheckCodings(id: string, valueSet: Option<string>, values: seq<ResponseValue>, env: Env) returns (errors: seq<QuestionError>)
    ensures errors == CodingErrors(id, valueSet, values, env)
  {
    errors := [];
    for i := 0 to |values|
      invariant errors + CodingErrors(id, valueSet, values[i..], env) == CodingErrors(id, valueSet, values, env)
    {
      assert values[i..][1..] == values[i + 1..];
      assert values[i..][0] == values[i];
      if values[i].valueCode.None? {
        errors := errors + [Reported("type_error", id, CodingRequiredMsg)];
        return;
      }
      if valueSet.Some? && !env.inValueSet(valueSet.value, values[i].valueCode) {
        errors := errors + [Reported("valueset_error", id, NotInValueSetMsg)];
      }
    }
    assert values[|values|..] == [];
  }

  /** The quantity loop of `validate_question_result`. */
  method CheckQuantities(id: string, valueSet: Option<string>, values: seq<ResponseValue>, env: Env) returns (errors: seq<QuestionError>)
    ensures errors == QuantityErrors(id, valueSet, values, env)
  {
    errors := [];
    for i := 0 to |values|
      invariant errors + QuantityErrors(id, valueSet, values[i..], env) == QuantityErrors(id, valueSet, values, env)
    {
      assert values[i..][1..] == values[i + 1..];
      assert values[i..][0] == values[i];
      if values[i].valueQuantity.None? {
        errors := errors + [Reported("type_error", id, QuantityRequiredMsg)];
        return;
      }
      if valueSet.Some? && !env.inValueSet(valueSet.value, values[i].valueQuantity.value.code) {
        errors := errors + [Reported("valueset_error", id, NotInValueSetMsg)];
      }
    }
    assert values[|values|..] == [];
  }

  // ---------------------------------------------------------------------
  // `create_observation_spec` and `convert_to_observation_spec`
  // ---------------------------------------------------------------------

  datatype ObservationValue =
    | EmptyValue
    | CodeValue(coding: Coding)
    | QuantityObservation(quantity: QuantityValue)
    | PlainValue(value: Option<string>)

  /** An observation record. `id` is the number the id counter gave it;
      `parent` is the id of the group observation it hangs under. */
  datatype Observation = Observation(
    id: nat,
    status: string,
    valueType: QuestionType,
    category: Option<Coding>,
    mainCode: Option<Coding>,
    value: ObservationValue,
    note: Option<string>,
    parent: Option<nat>,
    effectiveDatetime: int)

  const FinalStatus := "final"

  /** The value recorded for one submitted value: its coding for a choice,
      its quantity for a quantity, else its plain value. */
  function ObservationValueOf(t: QuestionType, v: ResponseValue): ObservationValue {
    if t == Choice && v.valueCode.Some? then CodeValue(v.valueCode.value)
    else if t == Quantity && v.valueQuantity.Some? then QuantityObservation(v.valueQuantity.value)
    else PlainValue(v.value)
  }

  /** `create_observation_spec`: the observations of one question and the
      next unused id. A group gets one observation with an empty value and
      no parent. Another question gets one only when it has an answer with
      at least one value; each value draws a fresh id and overwrites the
      record, so the LAST value and the last id survive. */
  function CreateSpec(q: Question, responses: map<string, QuestionResponse>, parentId: Option<nat>,
                      next: nat, now: int): (r: (seq<Observation>, nat))
    ensures |r.0| <= 1 && (q.qtype == Group ==> |r.0| == 1)
  {
    if q.qtype == Group then
      ([Observation(next, FinalStatus, Group, q.category, q.code, EmptyValue, None, None, now)], next + 1)
    else if q.id in responses && responses[q.id].values != [] then
      var response := responses[q.id];
      var last := response.values[|response.values| - 1];
      ([Observation(next + |response.values| - 1, FinalStatus, q.qtype, q.category, q.code,
                    ObservationValueOf(q.qtype, last), if Truthy(response.note) then response.note else None,
                    parentId, now)],
       next + |response.values|)
    else ([], next)
  }

  /** `create_observation_spec` with its loop over the values. */
  method CreateObservationSpec(q: Question, responses: map<string, QuestionResponse>, parentId: Option<nat>,
                               next: nat, now: int) returns (observations: seq<Observation>, next': nat)
    ensures (observations, next') == CreateSpec(q, responses, parentId, next, now)
  {
    var spec := Observation(0, FinalStatus, q.qtype, q.category, q.code, EmptyValue, None, None, now);
    if q.qtype == Group {
      return [spec.(id := next)], next + 1;
    }
    observations := [];
    next' := next;
    if q.id in responses && responses[q.id].values != [] {
      var response := responses[q.id];
      var observation := spec;
      for i := 0 to |response.values|
        invariant next' == next + i
        invariant i > 0 ==> observation == spec.(id := next + i - 1,
                                                 value := ObservationValueOf(q.qtype, response.values[i - 1]),
                                                 note := if Truthy(response.note) then response.note else None)
      {
        observation := spec.(id := next');
        next' := next' + 1;
        observation := observation.(value := ObservationValueOf(q.qtype, response.values[i]));
        if Truthy(response.note) {
          observation := observation.(note := response.note);
        }
      }
      observation := observation.(parent := parentId, effectiveDatetime := now);
      observations := [observation];
    }
  }

  /** `convert_to_observation_spec` on one question: a group's observation
      is kept only when its subtree yields something, and then comes first;
      a question without a code yields nothing. */
  function ConvertQuestion(q: Question, responses: map<string, QuestionResponse>, parentId: Option<nat>,
                           next: nat, now: int): (seq<Observation>, nat)
    decreases q
  {
    if q.qtype == Group then
      var (group, afterGroup) := CreateSpec(q, responses, parentId, next, now);
      var (sub, afterSub) := ConvertList(q.questions, responses, Some(group[0].id), afterGroup, now);
      (if sub != [] then group + sub else [], afterSub)
    else if q.code.Some? then CreateSpec(q, responses, parentId, next, now)
    else ([], next)
  }

  /** `convert_to_observation_spec` over a list of questions, in order. */
  function ConvertList(qs: seq<Question>, responses: map<string, QuestionResponse>, parentId: Option<nat>,
                       next: nat, now: int): (seq<Observation>, nat)
    decreases qs
  {
    if qs == [] then ([], next)
    else
      var (before, mid) := ConvertList(qs[..|qs| - 1], responses, parentId, next, now);
      var (last, after) := ConvertQuestion(qs[|qs| - 1], responses, parentId, mid, now);
      (before + last, after)
  }

  /** `convert_to_observation_spec(questionnaire, responses, parent_id)`. */
  method ConvertToObservationSpec(questions: seq<Question>, responses: map<string, QuestionResponse>, parentId: Option<nat>,
                                  next: nat, now: int) returns (observations: seq<Observation>, next': nat)
    ensures (observations, next') == ConvertList(questions, responses, parentId, next, now)
    decreases questions
  {
    observations := [];
    next' := next;
    for i := 0 to |questions|
      invariant (observations, next') == ConvertList(questions[..i], responses, parentId, next, now)
    {
      assert questions[..i + 1][..i] == questions[..i];
      var q := questions[i];
      if q.qtype == Group {
        var group, afterGroup := CreateObservationSpec(q, responses, parentId, next', now);
        var sub, afterSub := ConvertToObservationSpec(q.questions, responses, Some(group[0].id), afterGroup, now);
        if sub != [] {
          observations := observations + (group + sub);
        } else {
          assert observations + [] == observations;
        }
        next' := afterSub;
      } else if q.code.Some? {
        var one, after := CreateObservationSpec(q, responses, parentId, next', now);
        observations := observations + one;
        next' := after;
      } else {
        assert observations + [] == observations;
      }
    }
    assert questions[..|questions|] == questions;
  }

  // Properties of the flattened list

  /** Every id lies in `[lo, hi)`, and ids strictly increase along the list
      (fresh ids are never reused). */
  predicate IdsFresh(obs: seq<Observation>, lo: nat, hi: nat) {
    lo <= hi &&
    (forall k :: 0 <= k < |obs| ==> lo <= obs[k].id < hi) &&
    (forall j, k :: 0 <= j < k < |obs| ==> obs[j].id < obs[k].id)
  }

  /** The shape of a flattened list of observations: a sequence of trees,
      each either one non-group observation hanging under `parentId`, or a
      group observation (which records no parent) immediately followed by
      a non-empty forest of its own children, every child observation of
      which hangs under that group's id. */
  ghost predicate Forest(obs: seq<Observation>, parentId: Option<nat>)
    decreases |obs|, 1
  {
    obs == [] ||
    exists n :: 0 <= n < |obs| && Forest(obs[..n], parentId) && Tree(obs[n..], parentId)
  }

  ghost predicate Tree(obs: seq<Observation>, parentId: Option<nat>)
    decreases |obs|, 0
  {
    |obs| >= 1 &&
    if obs[0].valueType == Group then
      obs[0].parent.None? && |obs| >= 2 && Forest(obs[1..], Some(obs[0].id))
    else
      |obs| == 1 && obs[0].parent == parentId
  }

  predicate AllFinal(obs: seq<Observation>) {
    forall k :: 0 <= k < |obs| ==> obs[k].status == FinalStatus
  }

  ghost predicate WellFormed(obs: seq<Observation>, parentId: Option<nat>, lo: nat, hi: nat) {
    IdsFresh(obs, lo, hi) && Forest(obs, parentId) && AllFinal(obs)
  }

  /** A forest followed by one more tree is a forest. */
  lemma ForestSnoc(a: seq<Observation>, t: seq<Observation>, parentId: Option<nat>)
    requires Forest(a, parentId) && Tree(t, parentId)
    ensures Forest(a + t, parentId)
  {
    var at := a + t;
    assert at[..|a|] == a && at[|a|..] == t;
  }

  /** Two forests under the same parent concatenate into one. */
  lemma {:induction false} ForestAppend(a: seq<Observation>, b: seq<Observation>, parentId: Option<nat>)
    requires Forest(a, parentId) && Forest(b, parentId)
    ensures Forest(a + b, parentId)
    decreases |b|
  {
    if b == [] {
      assert a + b == a;
    } else {
      var n :| 0 <= n < |b| && Forest(b[..n], parentId) && Tree(b[n..], parentId);
      ForestAppend(a, b[..n], parentId);
      assert a + b == (a + b[..n]) + b[n..];
      ForestSnoc(a + b[..n], b[n..], parentId);
    }
  }

  lemma WellFormedAppend(a: seq<Observation>, b: seq<Observation>, parentId: Option<nat>, lo: nat, mid: nat, hi: nat)
    requires WellFormed(a, parentId, lo, mid) && WellFormed(b, parentId, mid, hi)
    ensures WellFormed(a + b, parentId, lo, hi)
  {
    var ab := a + b;
    ForestAppend(a, b, parentId);
    forall j, k | 0 <= j < k < |ab| ensures ab[j].id < ab[k].id {
      if k < |a| {
        assert ab[j] == a[j] && ab[k] == a[k];
      } else if j >= |a| {
        assert ab[j] == b[j - |a|] && ab[k] == b[k - |a|];
      } else {
        assert ab[j] == a[j] && ab[k] == b[k - |a|];
      }
    }
  }

  /** A single tree is a forest. */
  lemma TreeIsForest(t: seq<Observation>, parentId: Option<nat>)
    requires Tree(t, parentId)
    ensures Forest(t, parentId)
  {
    ForestSnoc([], t, parentId);
    assert [] + t == t;
  }

  lemma NestTree(g: Observation, sub: seq<Observation>, parentId: Option<nat>)
    requires g.valueType == Group && g.parent.None? && sub != [] && Forest(sub, Some(g.id))
    ensures Tree([g] + sub, parentId)
  {
    assert ([g] + sub)[1..] == sub;
  }

  /** A group observation followed by a non-empty forest of its children is
      one tree. */
  lemma WellFormedNest(g: Observation, sub: seq<Observation>, parentId: Option<nat>, lo: nat, hi: nat)
    requires g.valueType == Group && g.parent.None? && g.id == lo && g.status == FinalStatus
    requires sub != [] && WellFormed(sub, Some(lo), lo + 1, hi)
    ensures WellFormed([g] + sub, parentId, lo, hi)
    ensures Tree([g] + sub, parentId)
  {
    var all := [g] + sub;
    NestTree(g, sub, parentId);
    TreeIsForest(all, parentId);
    forall j, k | 0 <= j < k < |all| ensures all[j].id < all[k].id {
      assert all[k] == sub[k - 1];
      if j > 0 {
        assert all[j] == sub[j - 1];
      }
    }
  }

  lemma CreateSpecWellFormed(q: Question, responses: map<string, QuestionResponse>, parentId: Option<nat>, next: nat, now: int)
    requires q.qtype != Group
    ensures var (obs, next') := CreateSpec(q, responses, parentId, next, now);
      WellFormed(obs, parentId, next, next') && (obs == [] || Tree(obs, parentId))
  {
    var (obs, next') := CreateSpec(q, responses, parentId, next, now);
    if obs != [] {
      assert Tree(obs, parentId);
      TreeIsForest(obs, parentId);
    }
  }

  /** The observations of one question: fresh increasing ids, all "final",
      and either nothing or exactly one tree under `parentId`. */
  lemma {:induction false} ConvertQuestionWellFormed(q: Question, responses: map<string, QuestionResponse>,
                                                     parentId: Option<nat>, next: nat, now: int)
    ensures var (obs, next') := ConvertQuestion(q, responses, parentId, next, now);
      WellFormed(obs, parentId, next, next') && (obs == [] || Tree(obs, parentId))
    decreases q
  {
    if q.qtype == Group {
      var (group, afterGroup) := CreateSpec(q, responses, parentId, next, now);
      var (sub, afterSub) := ConvertList(q.questions, responses, Some(group[0].id), afterGroup, now);
      ConvertListWellFormed(q.questions, responses, Some(group[0].id), afterGroup, now);
      if sub != [] {
        WellFormedNest(group[0], sub, parentId, next, afterSub);
        assert group == [group[0]];
      }
    } else if q.code.Some? {
      CreateSpecWellFormed(q, responses, parentId, next, now);
    }
  }

  /** The observations of a list of questions: fresh increasing ids, all
      "final", and a forest under `parentId`. */
  lemma {:induction false} ConvertListWellFormed(qs: seq<Question>, responses: map<string, QuestionResponse>,
                                                 parentId: Option<nat>, next: nat, now: int)
    ensures WellFormed(ConvertList(qs, responses, parentId, next, now).0, parentId, next,
                       ConvertList(qs, responses, parentId, next, now).1)
    decreases qs
  {
    if qs != [] {
      var (before, mid) := ConvertList(qs[..|qs| - 1], responses, parentId, next, now);
      var (last, after) := ConvertQuestion(qs[|qs| - 1], responses, parentId, mid, now);
      ConvertListWellFormed(qs[..|qs| - 1], responses, parentId, next, now);
      ConvertQuestionWellFormed(qs[|qs| - 1], responses, parentId, mid, now);
      if last != [] {
        TreeIsForest(last, parentId);
      }
      WellFormedAppend(before, last, parentId, next, mid, after);
    }
  }

  /** A group question's observations: nothing when its subtree yields
      nothing; otherwise its own observation, with the first fresh id and no
      parent, followed immediately by the observations of its child
      questions, which hang under that id. */
  lemma ConvertGroupShape(q: Question, responses: map<string, QuestionResponse>, parentId: Option<nat>,
                          next: nat, now: int)
    requires q.qtype == Group
    ensures var obs := ConvertQuestion(q, responses, parentId, next, now).0;
      var sub := ConvertList(q.questions, responses, Some(next), next + 1, now).0;
      (obs == [] <==> sub == []) &&
      (obs != [] ==> obs[0].id == next && obs[0].valueType == Group && obs[0].parent.None? &&
                     obs[0].value == EmptyValue && obs[1..] == sub)
  {
  }

  // ---------------------------------------------------------------------
  // `handle_response`: the checks before anything is stored
  // ---------------------------------------------------------------------

  /** The `responses` dict: each result under its question id, a later
      result replacing an earlier one with the same id. */
  function Responses(results: seq<QuestionResponse>): map<string, QuestionResponse> {
    if results == [] then map[]
    else Responses(results[..|results| - 1])[results[|results| - 1].questionId := results[|results| - 1]]
  }

  method BuildResponses(results: seq<QuestionResponse>) returns (responses: map<string, QuestionResponse>)
    ensures responses == Responses(results)
  {
    responses := map[];
    for i := 0 to |results|
      invariant responses == Responses(results[..i])
    {
      assert results[..i + 1][..i] == results[..i];
      responses := responses[results[i].questionId := results[i]];
    }
    assert results[..|results|] == results;
  }

  /** Exactly the submitted ids are keys, and each maps to the last result
      submitted for it. */
  lemma {:induction false} ResponsesLastWins(results: seq<QuestionResponse>, id: string)
    ensures id in Responses(results) <==> exists j :: 0 <= j < |results| && results[j].questionId == id
    ensures id in Responses(results) ==>
      exists j :: 0 <= j < |results| && Responses(results)[id] == results[j] && results[j].questionId == id &&
        forall j' :: j < j' < |results| ==> results[j'].questionId != id
    decreases |results|
  {
    if results != [] {
      var init := results[..|results| - 1];
      ResponsesLastWins(init, id);
      if results[|results| - 1].questionId != id {
        if exists j :: 0 <= j < |results| && results[j].questionId == id {
          var j :| 0 <= j < |results| && results[j].questionId == id;
          assert init[j] == results[j];
        }
        if id in Responses(init) {
          var j :| 0 <= j < |init| && Responses(init)[id] == init[j] && init[j].questionId == id &&
            forall j' :: j < j' < |init| ==> init[j'].questionId != id;
          assert results[j] == init[j];
        }
      } else {
        assert Responses(results)[id] == results[|results| - 1];
      }
    }
  }

  datatype HandleError =
    | QuestionnaireEmpty
    | ValidationFailed(errors: seq<QuestionError>)
    | CheckRequiredRaised

  /** The walk `handle_response` runs over the top-level questions. */
  function TopLevelWalk(questions: seq<Question>, responses: map<string, QuestionResponse>, env: Env): WalkState {
    WalkList(questions, responses, None, WalkState([], map[], false), env)
  }

  /** The outcome of `handle_response` before anything is stored: empty
      submissions and validation errors are refused, otherwise the
      flattened observations and the next unused id. */
  function HandleSpec(questions: seq<Question>, results: seq<QuestionResponse>, env: Env, next: nat, now: int)
    : Result<(seq<Observation>, nat), HandleError>
  {
    var responses := Responses(results);
    if responses == map[] then Failure(QuestionnaireEmpty)
    else
      var st := TopLevelWalk(questions, responses, env);
      if st.raised then Failure(CheckRequiredRaised)
      else if st.errors != [] then Failure(ValidationFailed(st.errors))
      else Success(ConvertList(questions, responses, None, next, now))
  }

  method HandleResponse(questions: seq<Question>, results: seq<QuestionResponse>, env: Env, next: nat, now: int)
    returns (r: Result<(seq<Observation>, nat), HandleError>)
    ensures r == HandleSpec(questions, results, env, next, now)
  {
    var responses := BuildResponses(results);
    if responses == map[] {
      return Failure(QuestionnaireEmpty);
    }
    var validation := new ResponseValidation();
    for i := 0 to |questions|
      invariant validation.State() == WalkList(questions[..i], responses, None, WalkState([], map[], false), env)
    {
      assert questions[..i + 1][..i] == questions[..i];
      validation.ValidateQuestionResult(questions[i], responses, None, env);
    }
    assert questions[..|questions|] == questions;
    if validation.raised {
      return Failure(CheckRequiredRaised);
    }
    if validation.errors != [] {
      return Failure(ValidationFailed(validation.errors));
    }
    var observations, next' := ConvertToObservationSpec(questions, responses, None, next, now);
    return Success((observations, next'));
  }

  /** What `handle_response` promises: an empty submission is refused as
      such; every validation error names a question of the questionnaire;
      a required question left unanswered makes the submission fail, and a
      validation failure then lists it; on success the observations are a
      well-formed forest whose top-level ones carry no parent. */
  lemma HandleSpecFacts(questions: seq<Question>, results: seq<QuestionResponse>, env: Env, next: nat, now: int)
    ensures HandleSpec(questions, results, env, next, now) == Failure(QuestionnaireEmpty) <==> results == []
    ensures HandleSpec(questions, results, env, next, now).Failure? &&
            HandleSpec(questions, results, env, next, now).error.ValidationFailed? ==>
      forall e :: e in HandleSpec(questions, results, env, next, now).error.errors ==>
        Attributed(e, FlattenList(questions), Responses(results))
    ensures forall x :: x in FlattenList(questions) && Unanswered(x, Responses(results)) ==>
      HandleSpec(questions, results, env, next, now).Failure? &&
      (HandleSpec(questions, results, env, next, now).error.ValidationFailed? ==>
        NotAnswered(x.id) in HandleSpec(questions, results, env, next, now).error.errors)
    ensures HandleSpec(questions, results, env, next, now).Success? ==>
      var (obs, next') := HandleSpec(questions, results, env, next, now).value;
      WellFormed(obs, None, next, next')
  {
    var responses := Responses(results);
    if results != [] {
      ResponsesLastWins(results, results[0].questionId);
      assert results[0].questionId in responses;
    }
    var init := WalkState([], map[], false);
    WalkListFacts(questions, responses, None, init, env);
    ConvertListWellFormed(questions, responses, None, next, now);
    var st := TopLevelWalk(questions, responses, env);
    forall e | e in st.errors ensures Attributed(e, FlattenList(questions), responses) {
      var i :| 0 <= i < |st.errors| && st.errors[i] == e;
    }
  }
}
