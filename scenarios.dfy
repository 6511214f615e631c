/**
 * The sample classifier of tests/conftest.py and the behaviour its integration tests
 * expect, stated for every transaction with the relevant features rather than for
 * one description.
 */
module Scenarios {
  import opened Results
  import opened Strings
  import opened Models
  import opened Conditions
  import opened Classifiers

  /** `Text.any_of(*terms)` with its default, case-insensitive matching. */
  function AnyOf(terms: seq<string>): Condition {
    Text(ContainsAny, terms, false)
  }

  /** `Text.contains(*terms)` with its default, case-insensitive matching. */
  function AllOf(terms: seq<string>): Condition {
    Text(ContainsAll, terms, false)
  }

  const InvestmentTerms: seq<string> := ["cri", "deb", "lci", "lca"]

  // The rule conditions of `SampleClassifier`, in declaration order.
  const InterestRule: Condition := And(And(AnyOf(InvestmentTerms), AllOf(["juros"])), Positive)
  const AmortizationRule: Condition := And(And(AnyOf(InvestmentTerms), AllOf(["amort"])), Positive)
  const TreasuryRule: Condition := And(AllOf(["tesouro", "direto"]), Positive)
  const DividendRule: Condition := And(AnyOf(["dividendo", "jcp", "jscp"]), Positive)
  const CustodyTerms: seq<string> := ["custodia", "oferta"]
  const ExpenseRule: Condition := And(And(AllOf(["custo"]), Not(AnyOf(CustodyTerms))), Negative)
  const TaxTerms: seq<string> := ["taxa", "imposto", "ir", "iof", "custodia"]
  const TaxRule: Condition := And(Or(AnyOf(TaxTerms), AllOf(["taxa", "imposto"])), Negative)
  const TransferRule: Condition := And(AnyOf(["transferencia", "pix", "ted", "doc"]), Negative)
  const InvestmentRule: Condition :=
    And(Or(Or(AllOf(["aplicacao"]), AllOf(["aquisicao"])), AllOf(["compra"])), Negative)
  const RedemptionRule: Condition :=
    And(Or(Or(AllOf(["resgate"]), AllOf(["venda"])), AllOf(["liquidacao"])), Positive)

  const SampleConditions: seq<Condition> := [
    InterestRule, AmortizationRule, TreasuryRule, DividendRule, ExpenseRule,
    TaxRule, TransferRule, InvestmentRule, RedemptionRule, AlwaysTrue
  ]

  /** The categories registration derives from the attribute names `__ativo_juros` ... `__outros`. */
  const SampleCategories: seq<string> := [
    "ativo_juros", "ativo_amort", "tesouro_direto", "dividendos", "despesas",
    "taxas_impostos", "transferencias", "aplicacoes", "resgates", "outros"
  ]

  /** The registered rules of `SampleClassifier`: priorities 0 to 9 in declaration
      order. `SampleRegistration` shows that registering the class yields this list. */
  function SampleViews(): seq<RuleView> {
    seq(10, k requires 0 <= k < 10 => RuleView(SampleConditions[k], SampleCategories[k], k))
  }

  /** The body of `SampleClassifier` as Python stores it: rule `k` under the mangled
      form of its private name `__` + category. */
  function SampleNamespace(rules: seq<Rule>): Namespace
    requires |rules| == 10
  {
    seq(10, k requires 0 <= k < 10 =>
      (Mangle("SampleClassifier", "__" + SampleCategories[k]), RuleValue(rules[k])))
  }

  /** Every sample category ends in a letter. */
  lemma SampleCategoriesEndInLetters(k: nat)
    requires k < 10
    ensures |SampleCategories[k]| > 0 && SampleCategories[k][|SampleCategories[k]| - 1] != '_'
  {
  }

  /** Registering `SampleClassifier`, whose rules carry the sample conditions, gives
      each rule the category of its attribute name and its position as priority. */
  lemma SampleRegistration(rules: seq<Rule>)
    requires |rules| == 10
    requires forall k :: 0 <= k < 10 ==> rules[k].condition == SampleConditions[k]
    ensures Registered("SampleClassifier", SampleNamespace(rules)) == SampleViews()
  {
    var className, ns := "SampleClassifier", SampleNamespace(rules);
    assert StripUnderscores(className) == className;
    var prefix := Prefix(className);
    forall k | 0 <= k < 10
      ensures ns[k].0 == prefix + SampleCategories[k]
    {
      SampleCategoriesEndInLetters(k);
      NotDunderSuffix(SampleCategories[k]);
      MangledCategoryRoundTrip(className, SampleCategories[k]);
    }
    AllDeclared(className, ns);
    var views, decls := Registered(className, ns), Declarations(className, ns);
    forall k | 0 <= k < 10
      ensures views[k] == SampleViews()[k]
    {
      assert decls[k] == Declaration(ns[k].0, rules[k]);
      assert (prefix + views[k].category)[|prefix|..] == views[k].category;
      assert (prefix + SampleCategories[k])[|prefix|..] == SampleCategories[k];
    }
  }

  /** A word of lower-case ASCII letters only. */
  predicate LowerCaseWord(s: string) {
    forall i :: 0 <= i < |s| ==> 'a' <= s[i] <= 'z'
  }

  /** A lower-case ASCII word is its own lower-case form. */
  lemma LowerOfLowerCase(s: string)
    requires LowerCaseWord(s)
    ensures Lower(s) == s
  {
  }

  /** The single terms of the sample rules are lower-case words. */
  lemma SingleTermsLowerCase()
    ensures LowerCaseWord("juros") && LowerCaseWord("resgate") && LowerCaseWord("banco")
  {
  }

  /** A case-insensitive "any of" condition holds when one of its lower-case terms
      occurs in the lower-cased description. */
  lemma AnyOfMatches(terms: seq<string>, i: nat, t: Transaction)
    requires t.WellTyped() && i < |terms|
    requires LowerCaseWord(terms[i])
    requires IsSubstring(terms[i], Lower(t.Text()))
    ensures Matches(AnyOf(terms), t)
  {
    LowerOfLowerCase(terms[i]);
    assert TermMatches(ContainsAny, Lower(t.Text()), Normalize(terms[i], false));
  }

  /** A case-insensitive "contains" condition with one lower-case term holds when the
      term occurs in the lower-cased description. */
  lemma AllOfOneMatches(term: string, t: Transaction)
    requires t.WellTyped()
    requires LowerCaseWord(term)
    requires IsSubstring(term, Lower(t.Text()))
    ensures Matches(AllOf([term]), t)
  {
    LowerOfLowerCase(term);
    assert TermMatches(ContainsAll, Lower(t.Text()), Normalize([term][0], false));
  }

  /** A rule `X & Amount.positive()` never takes a zero or negative amount. */
  lemma NeedsPositive(x: Condition, t: Transaction)
    requires t.WellTyped() && t.Amount() <= 0.0
    ensures !RuleMatches(And(x, Positive), t)
  {
    assert Evaluate(Positive, t) == Success(false);
    assert Evaluate(x, t).Success?;
  }

  /** A rule `X & Amount.negative()` never takes a zero or positive amount. */
  lemma NeedsNegative(x: Condition, t: Transaction)
    requires t.WellTyped() && t.Amount() >= 0.0
    ensures !RuleMatches(And(x, Negative), t)
  {
    assert Evaluate(Negative, t) == Success(false);
    assert Evaluate(x, t).Success?;
  }

  /** The first nine sample rules each end in a sign test. */
  lemma SignGuarded(j: nat)
    requires j < 9
    ensures SampleConditions[j].And?
    ensures SampleConditions[j].right == (if j in {0, 1, 2, 3, 8} then Positive else Negative)
  {
  }

  /** The expense rule refuses whatever mentions custody. */
  lemma ExpenseExcludesCustody(t: Transaction)
    requires t.WellTyped()
    requires IsSubstring("custodia", Lower(t.Text()))
    ensures !RuleMatches(ExpenseRule, t)
  {
    var custody, cost := AnyOf(CustodyTerms), AllOf(["custo"]);
    CustodyMentioned(t);
    assert Matches(custody, t);
    RightFails(cost, custody, t);
    LeftFails(And(cost, Not(custody)), Negative, t);
  }

  /** The exclusion list of the expense rule catches "custodia". */
  lemma CustodyMentioned(t: Transaction)
    requires t.WellTyped()
    requires IsSubstring("custodia", Lower(t.Text()))
    ensures Matches(AnyOf(CustodyTerms), t)
  {
    assert CustodyTerms[0] == "custodia";
    AnyOfMatches(CustodyTerms, 0, t);
  }

  /** The tax rule takes a negative amount that mentions custody. */
  lemma TaxesTakeCustody(t: Transaction)
    requires t.WellTyped() && t.Amount() < 0.0
    requires IsSubstring("custodia", Lower(t.Text()))
    ensures RuleMatches(TaxRule, t)
  {
    TaxTextTakesCustody(t);
    assert Evaluate(Negative, t) == Success(true);
    BothHold(Or(AnyOf(TaxTerms), AllOf(["taxa", "imposto"])), Negative, t);
  }

  /** The text part of the tax rule holds when "custodia" occurs. */
  lemma TaxTextTakesCustody(t: Transaction)
    requires t.WellTyped()
    requires IsSubstring("custodia", Lower(t.Text()))
    ensures Matches(Or(AnyOf(TaxTerms), AllOf(["taxa", "imposto"])), t)
  {
    TaxTermsTakeCustody(t);
    EitherHolds(AnyOf(TaxTerms), AllOf(["taxa", "imposto"]), t);
  }

  /** "custodia" is one of the tax terms. */
  lemma TaxTermsTakeCustody(t: Transaction)
    requires t.WellTyped()
    requires IsSubstring("custodia", Lower(t.Text()))
    ensures Matches(AnyOf(TaxTerms), t)
  {
    assert TaxTerms[4] == "custodia";
    AnyOfMatches(TaxTerms, 4, t);
  }

  /** A conjunction of two conditions that hold holds. */
  lemma BothHold(l: Condition, r: Condition, t: Transaction)
    requires t.WellTyped() && Matches(l, t) && Matches(r, t)
    ensures Evaluate(And(l, r), t) == Success(true)
  {
  }

  /** A disjunction whose left operand holds holds. */
  lemma EitherHolds(l: Condition, r: Condition, t: Transaction)
    requires t.WellTyped() && Matches(l, t)
    ensures Evaluate(Or(l, r), t) == Success(true)
  {
  }

  /** A conjunction whose left operand fails fails. */
  lemma LeftFails(l: Condition, r: Condition, t: Transaction)
    requires t.WellTyped() && !Matches(l, t)
    ensures Evaluate(And(l, r), t) == Success(false)
  {
  }

  /** `l & ~r` fails when `r` holds. */
  lemma RightFails(l: Condition, r: Condition, t: Transaction)
    requires t.WellTyped() && Matches(r, t)
    ensures Evaluate(And(l, Not(r)), t) == Success(false)
  {
  }

  /** "cri" is one of the investment terms. */
  lemma MentionsInvestment(t: Transaction)
    requires t.WellTyped()
    requires IsSubstring("cri", Lower(t.Text()))
    ensures Matches(AnyOf(InvestmentTerms), t)
  {
    assert InvestmentTerms[0] == "cri";
    AnyOfMatches(InvestmentTerms, 0, t);
  }

  /** The interest rule takes a positive amount that mentions "cri" and "juros". */
  lemma InterestTakesCriInterest(t: Transaction)
    requires t.WellTyped() && t.Amount() > 0.0
    requires IsSubstring("cri", Lower(t.Text())) && IsSubstring("juros", Lower(t.Text()))
    ensures RuleMatches(InterestRule, t)
  {
    InterestMention(t);
    assert Evaluate(Positive, t) == Success(true);
    BothHold(And(AnyOf(InvestmentTerms), AllOf(["juros"])), Positive, t);
  }

  /** The text part of the interest rule holds when "cri" and "juros" both occur. */
  lemma InterestMention(t: Transaction)
    requires t.WellTyped()
    requires IsSubstring("cri", Lower(t.Text())) && IsSubstring("juros", Lower(t.Text()))
    ensures Evaluate(And(AnyOf(InvestmentTerms), AllOf(["juros"])), t) == Success(true)
  {
    MentionsInvestment(t);
    SingleTermsLowerCase();
    AllOfOneMatches("juros", t);
    BothHold(AnyOf(InvestmentTerms), AllOf(["juros"]), t);
  }

  /** The redemption rule takes a positive amount that mentions "resgate". */
  lemma RedemptionTakesResgate(t: Transaction)
    requires t.WellTyped() && t.Amount() > 0.0
    requires IsSubstring("resgate", Lower(t.Text()))
    ensures RuleMatches(RedemptionRule, t)
  {
    var redemption := AllOf(["resgate"]);
    SingleTermsLowerCase();
    AllOfOneMatches("resgate", t);
    EitherHolds(redemption, AllOf(["venda"]), t);
    EitherHolds(Or(redemption, AllOf(["venda"])), AllOf(["liquidacao"]), t);
    assert Evaluate(Positive, t) == Success(true);
    BothHold(Or(Or(redemption, AllOf(["venda"])), AllOf(["liquidacao"])), Positive, t);
  }

  /**
   * tests/integration/test_classifier.py:73-80: a negative transaction mentioning
   * "custodia" (and therefore "custo") is not an expense, because the expense rule
   * excludes custody, and goes to `taxas_impostos`.
   */
  lemma CustodyIsTaxNotExpense(t: Transaction, show: real -> string)
    requires t.WellTyped() && t.Amount() < 0.0
    requires IsSubstring("custodia", Lower(t.Text()))
    ensures var r := Classification("SampleClassifier", SampleViews(), t, show).value;
            r.category == "taxas_impostos" && r.priority == 5 && r.confidence == 1.0
  {
    var views := SampleViews();
    forall j | 0 <= j < 4 ensures !RuleMatches(views[j].condition, t) {
      SignGuarded(j);
      NeedsPositive(SampleConditions[j].left, t);
    }
    ExpenseExcludesCustody(t);
    TaxesTakeCustody(t);
    FirstMatchWins("SampleClassifier", views, t, show, 5);
  }

  /**
   * tests/integration/test_classifier.py:143-151: a positive "CRI ... juros ... resgate"
   * transaction satisfies both `ativo_juros` (priority 0) and `resgates` (priority 8);
   * the earlier rule wins.
   */
  lemma EarlierRuleWins(t: Transaction, show: real -> string)
    requires t.WellTyped() && t.Amount() > 0.0
    requires IsSubstring("cri", Lower(t.Text()))
    requires IsSubstring("juros", Lower(t.Text()))
    requires IsSubstring("resgate", Lower(t.Text()))
    ensures RuleMatches(SampleViews()[8].condition, t)
    ensures var r := Classification("SampleClassifier", SampleViews(), t, show).value;
            r.category == "ativo_juros" && r.priority == 0 && r.ruleName == "ativo_juros"
  {
    var views := SampleViews();
    InterestTakesCriInterest(t);
    RedemptionTakesResgate(t);
    FirstMatchWins("SampleClassifier", views, t, show, 0);
  }

  /**
   * tests/integration/test_edge_cases.py:22-28: every rule but the last requires a
   * positive or a negative amount, so a zero amount reaches the catch-all `outros`,
   * whatever the description.
   */
  lemma ZeroAmountFallsThrough(t: Transaction, show: real -> string)
    requires t.WellTyped() && t.Amount() == 0.0
    ensures var r := Classification("SampleClassifier", SampleViews(), t, show).value;
            r.category == "outros" && r.priority == 9 && r.confidence == 1.0
  {
    var views := SampleViews();
    forall j | 0 <= j < 9 ensures !RuleMatches(views[j].condition, t) {
      SignGuarded(j);
      if j in {0, 1, 2, 3, 8} {
        NeedsPositive(SampleConditions[j].left, t);
      } else {
        NeedsNegative(SampleConditions[j].left, t);
      }
    }
    FirstMatchWins("SampleClassifier", views, t, show, 9);
  }

  /** tests/unit/test_text_conditions.py:24-29: "BaNcO" contains "banco" once both are
      lower-cased. */
  lemma MixedCaseMatchesByDefault()
    ensures Matches(AllOf(["banco"]), Transaction(Str("BaNcO"), Int(100), None, map[]))
  {
    var t := Transaction(Str("BaNcO"), Int(100), None, map[]);
    assert Lower("BaNcO") == "banco";
    SubstringReflexive("banco");
    SingleTermsLowerCase();
    AllOfOneMatches("banco", t);
  }
}
