/**
 * The condition algebra of src/fin_classifier/conditions.py: boolean predicates
 * over a transaction's description and amount, combined into trees with AND, OR
 * and NOT. The Python class hierarchy (one subclass per kind of test, with
 * `matches` and `describe`) becomes one datatype with two recursive functions,
 * `Evaluate` and `Describe`.
 */
module Conditions {
  import opened Results
  import opened Strings
  import opened Models

  /** The five text tests, TextContainsAll ... TextEquals. */
  datatype TextMode = ContainsAll | ContainsAny | StartsWith | EndsWith | EqualsAny
  {
    /** The label that `describe` puts in front of the terms. */
    function Label(): string {
      match this
      case ContainsAll => "text contains all: "
      case ContainsAny => "text contains any: "
      case StartsWith => "text starts with: "
      case EndsWith => "text ends with: "
      case EqualsAny => "text equals: "
    }

    /** The separator that `describe` puts between the quoted terms. */
    function Separator(): string {
      if this == ContainsAll then " AND " else " OR "
    }
  }

  /** The operators of AmountGreaterThan, AmountLessThan, AmountGreaterOrEqual and
      AmountLessOrEqual. */
  datatype Comparison = GreaterThan | LessThan | GreaterOrEqual | LessOrEqual
  {
    /** `op(amount, value)` */
    function Holds(amount: real, value: real): bool {
      match this
      case GreaterThan => amount > value
      case LessThan => amount < value
      case GreaterOrEqual => amount >= value
      case LessOrEqual => amount <= value
    }

    /** `op_name` */
    function Symbol(): string {
      match this
      case GreaterThan => ">"
      case LessThan => "<"
      case GreaterOrEqual => ">="
      case LessOrEqual => "<="
    }
  }

  /** What Python raises when a condition reads a field of the wrong type:
      AttributeError (no `lower`/`startswith`) or TypeError (no `in`, no arithmetic,
      no ordering against a number). */
  datatype Fault = AttributeFault | TypeFault

  datatype Condition =
    | AlwaysTrue
    | Text(mode: TextMode, terms: seq<string>, caseSensitive: bool)
    | Compare(op: Comparison, value: real)
    | WithinTolerance(value: real, tolerance: real)
    | Between(minValue: real, maxValue: real)
    | Positive
    | Negative
    | And(left: Condition, right: Condition)
    | Or(left: Condition, right: Condition)
    | Not(condition: Condition)
  {
    /** The checks the constructors make: a text test has a term, a range is not empty.
        (AmountEquals does not check its tolerance.) */
    predicate WellFormed() {
      match this
      case Text(_, terms, _) => |terms| > 0
      case Between(lo, hi) => lo <= hi
      case And(l, r) => l.WellFormed() && r.WellFormed()
      case Or(l, r) => l.WellFormed() && r.WellFormed()
      case Not(c) => c.WellFormed()
      case _ => true
    }

    /** `self & other` */
    function AndWith(other: Condition): (r: Condition)
      ensures r.WellFormed() <==> WellFormed() && other.WellFormed()
      ensures forall t: Transaction | t.WellTyped() ::
                Matches(r, t) <==> Matches(this, t) && Matches(other, t)
    {
      And(this, other)
    }

    /** `self | other` */
    function OrWith(other: Condition): (r: Condition)
      ensures r.WellFormed() <==> WellFormed() && other.WellFormed()
      ensures forall t: Transaction | t.WellTyped() ::
                Matches(r, t) <==> Matches(this, t) || Matches(other, t)
    {
      Or(this, other)
    }

    /** `~self` */
    function Invert(): (r: Condition)
      ensures r.WellFormed() <==> WellFormed()
      ensures forall t: Transaction | t.WellTyped() :: Matches(r, t) <==> !Matches(this, t)
    {
      Not(this)
    }
  }

  /** `_normalize`: the text itself when case matters, its lower-case form otherwise. */
  function Normalize(s: string, caseSensitive: bool): string {
    if caseSensitive then s else Lower(s)
  }

  /** One term against the (normalised) description. */
  predicate TermMatches(mode: TextMode, text: string, term: string) {
    match mode
    case ContainsAll => Contains(text, term)
    case ContainsAny => Contains(text, term)
    case StartsWith => term <= text
    case EndsWith => IsSuffix(term, text)
    case EqualsAny => text == term
  }

  /** `all(... for term in terms)` */
  function AllTerms(mode: TextMode, text: string, terms: seq<string>, caseSensitive: bool): (b: bool)
    ensures b <==> forall i :: 0 <= i < |terms| ==> TermMatches(mode, text, Normalize(terms[i], caseSensitive))
  {
    if |terms| == 0 then
      true
    else
      assert forall i :: 1 <= i < |terms| ==> terms[i] == terms[1..][i - 1];
      TermMatches(mode, text, Normalize(terms[0], caseSensitive))
      && AllTerms(mode, text, terms[1..], caseSensitive)
  }

  /** `any(... for term in terms)` */
  function AnyTerm(mode: TextMode, text: string, terms: seq<string>, caseSensitive: bool): (b: bool)
    ensures b <==> exists i :: 0 <= i < |terms| && TermMatches(mode, text, Normalize(terms[i], caseSensitive))
  {
    if |terms| == 0 then
      false
    else
      assert forall i :: 1 <= i < |terms| ==> terms[i] == terms[1..][i - 1];
      TermMatches(mode, text, Normalize(terms[0], caseSensitive))
      || AnyTerm(mode, text, terms[1..], caseSensitive)
  }

  /** `matches` of a text condition, for a description of any type. */
  function EvaluateText(mode: TextMode, terms: seq<string>, caseSensitive: bool, description: Value): (r: Result<bool, Fault>)
    ensures description.Str? ==> r.Success?
  {
    match description
    case Str(d) =>
      var text := Normalize(d, caseSensitive);
      Success(if mode == ContainsAll then AllTerms(mode, text, terms, caseSensitive)
              else AnyTerm(mode, text, terms, caseSensitive))
    case _ =>
      if !caseSensitive then Failure(AttributeFault)          // `description.lower()`
      else if |terms| == 0 then Success(mode == ContainsAll)  // the generator never runs
      else if mode == EqualsAny then Success(false)           // `==` with a non-string is False
      else if mode == StartsWith || mode == EndsWith then Failure(AttributeFault)
      else Failure(TypeFault)                                 // `term in <non-string>`
  }

  function Abs(x: real): real {
    if x < 0.0 then -x else x
  }

  /**
   * `condition.matches(transaction)`, with the exception it may raise as a `Failure`.
   * AND evaluates its right operand only when the left one holds, OR only when the
   * left one does not, so a fault on the right may go unnoticed. A transaction whose
   * fields have the types `__post_init__` checks never makes evaluation fail.
   */
  function Evaluate(c: Condition, t: Transaction): (r: Result<bool, Fault>)
    ensures t.WellTyped() ==> r.Success?
  {
    match c
    case AlwaysTrue => Success(true)
    case Text(mode, terms, caseSensitive) => EvaluateText(mode, terms, caseSensitive, t.description)
    case Compare(op, value) =>
      if IsNumber(t.amount) then Success(op.Holds(NumberOf(t.amount), value)) else Failure(TypeFault)
    case WithinTolerance(value, tolerance) =>
      if IsNumber(t.amount) then Success(Abs(NumberOf(t.amount) - value) < tolerance) else Failure(TypeFault)
    case Between(lo, hi) =>
      if IsNumber(t.amount) then Success(lo <= NumberOf(t.amount) <= hi) else Failure(TypeFault)
    case Positive =>
      if IsNumber(t.amount) then Success(NumberOf(t.amount) > 0.0) else Failure(TypeFault)
    case Negative =>
      if IsNumber(t.amount) then Success(NumberOf(t.amount) < 0.0) else Failure(TypeFault)
    case And(l, r) =>
      var left := Evaluate(l, t);
      if left.Failure? || !left.value then left else Evaluate(r, t)
    case Or(l, r) =>
      var left := Evaluate(l, t);
      if left.Failure? || left.value then left else Evaluate(r, t)
    case Not(inner) =>
      var v := Evaluate(inner, t);
      if v.Failure? then v else Success(!v.value)
  }

  /** `condition.matches(transaction)` for a well-typed transaction. */
  function Matches(c: Condition, t: Transaction): bool
    requires t.WellTyped()
  {
    Evaluate(c, t).value
  }

  /** `describe()`; how a number is written is left to `show`. */
  function Describe(c: Condition, show: real -> string): string {
    match c
    case AlwaysTrue => "always true (fallback)"
    case Text(mode, terms, _) => mode.Label() + JoinQuoted(terms, mode.Separator())
    case Compare(op, value) => "amount " + op.Symbol() + " " + show(value)
    case WithinTolerance(value, tolerance) => "amount == " + show(value) + " (±" + show(tolerance) + ")"
    case Between(lo, hi) => "amount between " + show(lo) + " and " + show(hi)
    case Positive => "amount > 0 (positive)"
    case Negative => "amount < 0 (negative)"
    case And(l, r) => "(" + Describe(l, show) + " AND " + Describe(r, show) + ")"
    case Or(l, r) => "(" + Describe(l, show) + " OR " + Describe(r, show) + ")"
    case Not(inner) => "NOT (" + Describe(inner, show) + ")"
  }

  // ===== Constructors and the Text / Amount factories =====

  const EmptyTermsMessage: string := "Pelo menos um termo deve ser fornecido"
  const InvalidRangeMessage: string := "min_value deve ser menor ou igual a max_value"

  /** `TextCondition.__init__(*terms, case_sensitive)`: refuses an empty list of terms. */
  function NewText(mode: TextMode, terms: seq<string>, caseSensitive: bool): (r: Result<Condition, Error>)
    ensures r.Success? <==> |terms| > 0
    ensures r.Failure? ==> r.error == ValueError(EmptyTermsMessage)
    ensures r.Success? ==> r.value.WellFormed() && r.value == Text(mode, terms, caseSensitive)
  {
    if |terms| == 0 then Failure(ValueError(EmptyTermsMessage)) else Success(Text(mode, terms, caseSensitive))
  }

  /** `Text.contains`: every term occurs in the description. */
  function TextContains(terms: seq<string>, caseSensitive: bool := false): (r: Result<Condition, Error>)
    ensures r.Success? <==> |terms| > 0
    ensures r.Success? ==> forall t: Transaction | t.WellTyped() ::
              Matches(r.value, t) <==>
              forall i :: 0 <= i < |terms| ==>
                IsSubstring(Normalize(terms[i], caseSensitive), Normalize(t.Text(), caseSensitive))
  {
    NewText(ContainsAll, terms, caseSensitive)
  }

  /** `Text.any_of`: some term occurs in the description. */
  function TextAnyOf(terms: seq<string>, caseSensitive: bool := false): (r: Result<Condition, Error>)
    ensures r.Success? <==> |terms| > 0
    ensures r.Success? ==> forall t: Transaction | t.WellTyped() ::
              Matches(r.value, t) <==>
              exists i :: 0 <= i < |terms| &&
                IsSubstring(Normalize(terms[i], caseSensitive), Normalize(t.Text(), caseSensitive))
  {
    NewText(ContainsAny, terms, caseSensitive)
  }

  /** `Text.starts_with`: the description begins with some term. */
  function TextStartsWith(terms: seq<string>, caseSensitive: bool := false): (r: Result<Condition, Error>)
    ensures r.Success? <==> |terms| > 0
    ensures r.Success? ==> forall t: Transaction | t.WellTyped() ::
              Matches(r.value, t) <==>
              exists i :: 0 <= i < |terms| &&
                Normalize(terms[i], caseSensitive) <= Normalize(t.Text(), caseSensitive)
  {
    NewText(StartsWith, terms, caseSensitive)
  }

  /** `Text.ends_with`: the description ends with some term. */
  function TextEndsWith(terms: seq<string>, caseSensitive: bool := false): (r: Result<Condition, Error>)
    ensures r.Success? <==> |terms| > 0
    ensures r.Success? ==> forall t: Transaction | t.WellTyped() ::
              Matches(r.value, t) <==>
              exists i :: 0 <= i < |terms| &&
                IsSuffix(Normalize(terms[i], caseSensitive), Normalize(t.Text(), caseSensitive))
  {
    NewText(EndsWith, terms, caseSensitive)
  }

  /** `Text.equals`: the description is some term. */
  function TextEquals(terms: seq<string>, caseSensitive: bool := false): (r: Result<Condition, Error>)
    ensures r.Success? <==> |terms| > 0
    ensures r.Success? ==> forall t: Transaction | t.WellTyped() ::
              Matches(r.value, t) <==>
              exists i :: 0 <= i < |terms| &&
                Normalize(t.Text(), caseSensitive) == Normalize(terms[i], caseSensitive)
  {
    NewText(EqualsAny, terms, caseSensitive)
  }

  /** `Amount.gt` */
  function AmountGt(value: real): (c: Condition)
    ensures c.WellFormed()
    ensures forall t: Transaction | t.WellTyped() :: Matches(c, t) <==> t.Amount() > value
  {
    Compare(GreaterThan, value)
  }

  /** `Amount.lt` */
  function AmountLt(value: real): (c: Condition)
    ensures c.WellFormed()
    ensures forall t: Transaction | t.WellTyped() :: Matches(c, t) <==> t.Amount() < value
  {
    Compare(LessThan, value)
  }

  /** `Amount.gte` */
  function AmountGte(value: real): (c: Condition)
    ensures c.WellFormed()
    ensures forall t: Transaction | t.WellTyped() :: Matches(c, t) <==> t.Amount() >= value
  {
    Compare(GreaterOrEqual, value)
  }

  /** `Amount.lte` */
  function AmountLte(value: real): (c: Condition)
    ensures c.WellFormed()
    ensures forall t: Transaction | t.WellTyped() :: Matches(c, t) <==> t.Amount() <= value
  {
    Compare(LessOrEqual, value)
  }

  /** `Amount.eq(value, tolerance=0.01)`: strictly closer than the tolerance. */
  function AmountEq(value: real, tolerance: real := 0.01): (c: Condition)
    ensures c.WellFormed()
    ensures forall t: Transaction | t.WellTyped() ::
              Matches(c, t) <==> -tolerance < t.Amount() - value < tolerance
  {
    WithinTolerance(value, tolerance)
  }

  /** `Amount.between(min_value, max_value)`: refuses `min_value > max_value`, and
      otherwise includes both ends. */
  function AmountBetween(minValue: real, maxValue: real): (r: Result<Condition, Error>)
    ensures r.Success? <==> minValue <= maxValue
    ensures r.Failure? ==> r.error == ValueError(InvalidRangeMessage)
    ensures r.Success? ==> r.value.WellFormed()
    ensures r.Success? ==> forall t: Transaction | t.WellTyped() ::
              Matches(r.value, t) <==> minValue <= t.Amount() <= maxValue
  {
    if minValue > maxValue then Failure(ValueError(InvalidRangeMessage)) else Success(Between(minValue, maxValue))
  }

  /** `Amount.positive` */
  function AmountPositive(): (c: Condition)
    ensures c.WellFormed()
    ensures forall t: Transaction | t.WellTyped() :: Matches(c, t) <==> t.Amount() > 0.0
  {
    Positive
  }

  /** `Amount.negative` */
  function AmountNegative(): (c: Condition)
    ensures c.WellFormed()
    ensures forall t: Transaction | t.WellTyped() :: Matches(c, t) <==> t.Amount() < 0.0
  {
    Negative
  }

  // ===== Laws =====

  /** `~~A` matches exactly what `A` matches. */
  lemma DoubleNegation(a: Condition, t: Transaction)
    requires t.WellTyped()
    ensures Matches(a.Invert().Invert(), t) == Matches(a, t)
  {
  }

  /** AND and OR short-circuit: once the left operand decides, the right one is not
      evaluated, so it cannot fail the evaluation even on an ill-typed transaction. */
  lemma ShortCircuit(l: Condition, r: Condition, t: Transaction)
    ensures Evaluate(l, t) == Success(false) ==> Evaluate(And(l, r), t) == Success(false)
    ensures Evaluate(l, t) == Success(true) ==> Evaluate(Or(l, r), t) == Success(true)
    ensures Evaluate(l, t).Failure? ==> Evaluate(And(l, r), t) == Evaluate(l, t)
    ensures Evaluate(l, t).Failure? ==> Evaluate(Or(l, r), t) == Evaluate(l, t)
  {
  }

  /** Zero is neither positive nor negative; every other amount is exactly one of them. */
  lemma SignsPartition(t: Transaction)
    requires t.WellTyped()
    ensures t.Amount() == 0.0 <==> !Matches(Positive, t) && !Matches(Negative, t)
    ensures !(Matches(Positive, t) && Matches(Negative, t))
  {
  }

  /** The tolerance is strict: an amount exactly `tolerance` away does not match, and a
      zero or negative tolerance never matches. */
  lemma ToleranceIsStrict(value: real, tolerance: real, t: Transaction)
    requires t.WellTyped()
    ensures Abs(t.Amount() - value) == tolerance ==> !Matches(WithinTolerance(value, tolerance), t)
    ensures tolerance <= 0.0 ==> !Matches(WithinTolerance(value, tolerance), t)
  {
  }

  /** Without `case_sensitive`, a text test sees only the lower-case forms of the
      description and of the terms: descriptions and terms that differ only in case
      give the same answer. */
  lemma CaseInsensitiveByDefault(mode: TextMode, terms1: seq<string>, terms2: seq<string>, t1: Transaction, t2: Transaction)
    requires |terms1| == |terms2|
    requires forall i :: 0 <= i < |terms1| ==> Lower(terms1[i]) == Lower(terms2[i])
    requires t1.WellTyped() && t2.WellTyped() && Lower(t1.Text()) == Lower(t2.Text())
    ensures Matches(Text(mode, terms1, false), t1) == Matches(Text(mode, terms2, false), t2)
  {
    assert forall i :: 0 <= i < |terms1| ==> Normalize(terms1[i], false) == Normalize(terms2[i], false);
    var text := Normalize(t1.Text(), false);
    AllTermsAgree(mode, text, terms1, terms2, false);
    AnyTermAgrees(mode, text, terms1, terms2, false);
  }

  /** Term lists whose normal forms agree position by position pass or fail together
      under `all(...)`. */
  lemma AllTermsAgree(mode: TextMode, text: string, terms1: seq<string>, terms2: seq<string>, caseSensitive: bool)
    requires |terms1| == |terms2|
    requires forall i :: 0 <= i < |terms1| ==> Normalize(terms1[i], caseSensitive) == Normalize(terms2[i], caseSensitive)
    ensures AllTerms(mode, text, terms1, caseSensitive) == AllTerms(mode, text, terms2, caseSensitive)
  {
    if AllTerms(mode, text, terms1, caseSensitive) {
      forall i | 0 <= i < |terms2| ensures TermMatches(mode, text, Normalize(terms2[i], caseSensitive)) {
        assert TermMatches(mode, text, Normalize(terms1[i], caseSensitive));
      }
    }
    if AllTerms(mode, text, terms2, caseSensitive) {
      forall i | 0 <= i < |terms1| ensures TermMatches(mode, text, Normalize(terms1[i], caseSensitive)) {
        assert TermMatches(mode, text, Normalize(terms2[i], caseSensitive));
      }
    }
  }

  /** Term lists whose normal forms agree position by position pass or fail together
      under `any(...)`. */
  lemma AnyTermAgrees(mode: TextMode, text: string, terms1: seq<string>, terms2: seq<string>, caseSensitive: bool)
    requires |terms1| == |terms2|
    requires forall i :: 0 <= i < |terms1| ==> Normalize(terms1[i], caseSensitive) == Normalize(terms2[i], caseSensitive)
    ensures AnyTerm(mode, text, terms1, caseSensitive) == AnyTerm(mode, text, terms2, caseSensitive)
  {
    if AnyTerm(mode, text, terms1, caseSensitive) {
      var i :| 0 <= i < |terms1| && TermMatches(mode, text, Normalize(terms1[i], caseSensitive));
      assert TermMatches(mode, text, Normalize(terms2[i], caseSensitive));
    }
    if AnyTerm(mode, text, terms2, caseSensitive) {
      var i :| 0 <= i < |terms2| && TermMatches(mode, text, Normalize(terms2[i], caseSensitive));
      assert TermMatches(mode, text, Normalize(terms1[i], caseSensitive));
    }
  }

  /** With `case_sensitive=True` the raw strings are compared: "B" is found in "B"
      but not in "b". */
  lemma CaseSensitiveDistinguishes()
    ensures var c := Text(ContainsAll, ["B"], true);
            var upper := Transaction(Str("B"), Int(100), None, map[]);
            var lower := Transaction(Str("b"), Int(100), None, map[]);
            Matches(c, upper) && !Matches(c, lower)
  {
    assert OccursAt("B", "B", 0);
    assert forall j: nat :: !OccursAt("B", "b", j) by {
      forall j: nat ensures !OccursAt("B", "b", j) {
        if j == 0 { assert "b"[0..1][0] == 'b'; }
      }
    }
  }

  // ===== Descriptions =====

  /** The terms of all the text tests in a condition tree. */
  ghost function TermsOf(c: Condition): set<string> {
    match c
    case Text(_, terms, _) => set i | 0 <= i < |terms| :: terms[i]
    case And(l, r) => TermsOf(l) + TermsOf(r)
    case Or(l, r) => TermsOf(l) + TermsOf(r)
    case Not(inner) => TermsOf(inner)
    case _ => {}
  }

  /** The description of `A & B` contains those of `A` and `B` and the word AND. */
  lemma DescribeAnd(l: Condition, r: Condition, show: real -> string)
    ensures IsSubstring(Describe(l, show), Describe(And(l, r), show))
    ensures IsSubstring(Describe(r, show), Describe(And(l, r), show))
    ensures IsSubstring(" AND ", Describe(And(l, r), show))
  {
    var dl, dr := Describe(l, show), Describe(r, show);
    assert Describe(And(l, r), show) == "(" + dl + " AND " + dr + ")";
    SubstringOfParts("(", dl, " AND ", dr, ")");
  }

  /** The description of `A | B` contains those of `A` and `B` and the word OR. */
  lemma DescribeOr(l: Condition, r: Condition, show: real -> string)
    ensures IsSubstring(Describe(l, show), Describe(Or(l, r), show))
    ensures IsSubstring(Describe(r, show), Describe(Or(l, r), show))
    ensures IsSubstring(" OR ", Describe(Or(l, r), show))
  {
    var dl, dr := Describe(l, show), Describe(r, show);
    assert Describe(Or(l, r), show) == "(" + dl + " OR " + dr + ")";
    SubstringOfParts("(", dl, " OR ", dr, ")");
  }

  /** The description of `~A` contains that of `A`, after the word NOT. */
  lemma DescribeNot(c: Condition, show: real -> string)
    ensures IsSubstring(Describe(c, show), Describe(Not(c), show))
    ensures "NOT (" <= Describe(Not(c), show)
  {
    SubstringOfConcat("NOT (", Describe(c, show), ")");
  }

  /** Every term of every text test in a tree can be read in the tree's description. */
  lemma {:induction false} DescribeMentionsTerms(c: Condition, show: real -> string, term: string)
    requires term in TermsOf(c)
    ensures IsSubstring(term, Describe(c, show))
  {
    match c
    case Text(mode, terms, _) =>
      var i :| 0 <= i < |terms| && terms[i] == term;
      JoinQuotedMentions(terms, mode.Separator(), i);
      SubstringExtendLeft(term, mode.Label(), JoinQuoted(terms, mode.Separator()));
    case And(l, r) =>
      DescribeAnd(l, r, show);
      if term in TermsOf(l) {
        DescribeMentionsTerms(l, show, term);
        SubstringTransitive(term, Describe(l, show), Describe(c, show));
      } else {
        DescribeMentionsTerms(r, show, term);
        SubstringTransitive(term, Describe(r, show), Describe(c, show));
      }
    case Or(l, r) =>
      DescribeOr(l, r, show);
      if term in TermsOf(l) {
        DescribeMentionsTerms(l, show, term);
        SubstringTransitive(term, Describe(l, show), Describe(c, show));
      } else {
        DescribeMentionsTerms(r, show, term);
        SubstringTransitive(term, Describe(r, show), Describe(c, show));
      }
    case Not(inner) =>
      DescribeNot(inner, show);
      DescribeMentionsTerms(inner, show, term);
      SubstringTransitive(term, Describe(inner, show), Describe(c, show));
  }
}
