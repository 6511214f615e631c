/**
 * The two records of the classifier (src/fin_classifier/models.py): the bank
 * transaction that is classified and the result of classifying it.
 */
module Models {
  import opened Results
  import opened Strings

  /**
   * A Python value as it can be stored in a dataclass field. The annotations of
   * `Transaction` are not enforced by Python, and its fields remain assignable after
   * construction, so a description or an amount of the wrong type can reach the
   * conditions.
   */
  datatype Value = Str(s: string) | Int(i: int) | Float(f: real) | Bool(b: bool) | NoneValue

  /** `isinstance(v, (int, float))`; `bool` is a subclass of `int` in Python. */
  predicate IsNumber(v: Value) {
    v.Int? || v.Float? || v.Bool?
  }

  /** The number a numeric value stands for (`True == 1`, `False == 0`). */
  function NumberOf(v: Value): real
    requires IsNumber(v)
  {
    match v
    case Int(i) => i as real
    case Float(f) => f
    case Bool(b) => if b then 1.0 else 0.0
  }

  /** Stands for a `datetime`, which the classifier never reads. */
  datatype Timestamp = Timestamp(seconds: int)

  datatype Transaction = Transaction(
    description: Value,
    amount: Value,
    date: Option<Timestamp>,
    metadata: map<string, Value>)
  {
    /** What `__post_init__` checks at construction. */
    predicate WellTyped() {
      description.Str? && IsNumber(amount)
    }

    function Text(): string
      requires WellTyped()
    {
      description.s
    }

    function Amount(): real
      requires WellTyped()
    {
      NumberOf(amount)
    }
  }

  /** The exceptions the library raises itself, with their messages. */
  datatype Error = ValueError(message: string) | TypeError(message: string)

  const DescriptionNotString: string := "description deve ser string"
  const AmountNotNumeric: string := "amount deve ser numérico"

  /**
   * `Transaction(description, amount, date=None, metadata={})`: the dataclass
   * constructor followed by `__post_init__`, which rejects a non-string description
   * first and then a non-numeric amount. There is no restriction on the sign.
   */
  function NewTransaction(
    description: Value,
    amount: Value,
    date: Option<Timestamp> := None,
    metadata: map<string, Value> := map[]): (r: Result<Transaction, Error>)
    ensures r.Success? <==> description.Str? && IsNumber(amount)
    ensures r.Success? ==> r.value.WellTyped()
    ensures r.Success? ==>
              && r.value.description == description && r.value.amount == amount
              && r.value.date == date && r.value.metadata == metadata
    ensures !description.Str? ==> r == Failure(TypeError(DescriptionNotString))
    ensures description.Str? && !IsNumber(amount) ==> r == Failure(TypeError(AmountNotNumeric))
  {
    if !description.Str? then
      Failure(TypeError(DescriptionNotString))
    else if !IsNumber(amount) then
      Failure(TypeError(AmountNotNumeric))
    else
      Success(Transaction(description, amount, date, metadata))
  }

  /** A description and a numeric amount of any sign, zero included, make a transaction
      whose date is absent and whose metadata is empty. */
  lemma NewTransactionDefaults(description: string, amount: real)
    ensures NewTransaction(Str(description), Float(amount)).Success?
    ensures var t := NewTransaction(Str(description), Float(amount)).value;
            t.Text() == description && t.Amount() == amount && t.date == None && t.metadata == map[]
  {
  }

  datatype ClassificationResult = ClassificationResult(
    category: string,
    priority: int,
    ruleName: string,
    confidence: real,
    matchedConditions: seq<string>)
  {
    /** `__str__` */
    function ToString(): string {
      category + " (prioridade: " + IntToString(priority) + ", regra: " + ruleName + ")"
    }
  }

  /** `ClassificationResult(category, priority, rule_name, confidence=1.0, matched_conditions=[])` */
  function NewClassificationResult(
    category: string,
    priority: int,
    ruleName: string,
    confidence: real := 1.0,
    matchedConditions: seq<string> := []): (r: ClassificationResult)
  {
    ClassificationResult(category, priority, ruleName, confidence, matchedConditions)
  }

  /** When not given, the confidence is 1.0 and the list of matched conditions is empty. */
  lemma ClassificationResultDefaults(category: string, priority: int, ruleName: string)
    ensures var r := NewClassificationResult(category, priority, ruleName);
            r.category == category && r.priority == priority && r.ruleName == ruleName
            && r.confidence == 1.0 && r.matchedConditions == []
  {
  }

  /** The text of a result names its category, its priority and its rule. */
  lemma ToStringMentionsFields(r: ClassificationResult)
    ensures IsSubstring(r.category, r.ToString())
    ensures IsSubstring(IntToString(r.priority), r.ToString())
    ensures IsSubstring(r.ruleName, r.ToString())
  {
    var c, p, n := r.category, IntToString(r.priority), r.ruleName;
    SubstringReflexive(c);
    SubstringExtendRight(c, c, " (prioridade: ");
    SubstringExtendRight(c, c + " (prioridade: ", p);
    SubstringExtendRight(c, c + " (prioridade: " + p, ", regra: ");
    SubstringExtendRight(c, c + " (prioridade: " + p + ", regra: ", n);
    SubstringExtendRight(c, c + " (prioridade: " + p + ", regra: " + n, ")");
    SubstringReflexive(p);
    SubstringExtendLeft(p, c + " (prioridade: ", p);
    SubstringExtendRight(p, c + " (prioridade: " + p, ", regra: ");
    SubstringExtendRight(p, c + " (prioridade: " + p + ", regra: ", n);
    SubstringExtendRight(p, c + " (prioridade: " + p + ", regra: " + n, ")");
    SubstringReflexive(n);
    SubstringExtendLeft(n, c + " (prioridade: " + p + ", regra: ", n);
    SubstringExtendRight(n, c + " (prioridade: " + p + ", regra: " + n, ")");
  }
}
