# fin-classifier in Dafny

A Dafny model of the fin-classifier library: a rule engine that assigns a category
to a bank transaction. It covers the condition algebra, the `Rule` objects, the
metaclass that registers a classifier's rules, first-match classification, and the
`Transaction` and `ClassificationResult` records.

Modules, one per source file plus shared pieces:

- `Results` (results.dfy): `Option` and `Result`. A raised exception becomes a `Failure`.
- `Strings` (strings.dfy): the `str` operations the library uses. These are `lower`,
  `in`, `endswith`, `split(sep, 1)`, the quoted `join` of `describe` and `str(int)`.
- `Models` (models.dfy): `Transaction`, whose fields are dynamic Python values, and
  `ClassificationResult`.
- `Conditions` (conditions.dfy): the `Condition` datatype.
  - `Evaluate` is `matches`. It reports the exception a wrongly-typed field raises.
  - `Matches` is `matches` for a transaction that passed `__post_init__`.
  - `Describe` is `describe`.
  - The `Text.*` and `Amount.*` factories each state what their condition matches.
- `Classifiers` (classifier.py):
  - `Rule` is a class whose `category`, `priority` and `validated` fields are written
    after construction.
  - `Register` is the registration loop of `ClassifierMeta.__new__`.
  - A `Classifier` object stands for a classifier class. Its `Classify`, `ClassifyBatch`
    and `GetRules` are the class methods.
  - The pure functions `Classification` and `ClassificationBatch` specify those methods.
- `Scenarios` (scenarios.dfy): the sample classifier of the test suite and the behaviour
  its tests expect. Each lemma covers every transaction with the relevant features.

Design points:

- `Transaction`'s fields stay assignable after construction, and the annotations are
  not enforced. A description or amount of the wrong type can therefore reach a
  condition, and `Rule.matches` turns the resulting exception into "no match".
  - This is why a field holds a `Value`: a string, int, float, bool or None. A bool
    counts as a number, as in Python.
  - `Evaluate` returns a `Failure` for such fields.
  - `Evaluate` is proved never to fail on a well-typed transaction.
- `describe` leaves how numbers are printed to a parameter `show: real -> string`.
- Matching and describing are separate pure functions. Describing therefore cannot
  affect matching.
- A `Rule` object bound to two attribute names is configured twice by registration, and
  both list entries show the last configuration. `Register` states this. When no rule
  object is repeated, the classifier's rules equal the pure `Registered` list, with
  priorities 0, 1, 2, ….
- Where the code and its prose specification differ, the model follows the code:
  - The fallback category is `"não_classificado"`.
  - `Amount.eq` accepts a negative tolerance; such a condition never matches.
- Registration uses the corrected category extraction described under "## Findings".
  The code as written is modelled beside it.

## Model

| member | source | states |
|---|---|---|
| Strings.Lower | src/fin_classifier/conditions.py:121-123 | `str.lower` keeps the length and lower-cases each character on its own (ASCII and Latin-1 letters). |
| Strings.Contains | src/fin_classifier/conditions.py:135 | Python's `term in text` holds exactly when `term` occurs at some position of `text`. |
| Strings.IndexOf | src/fin_classifier/classifier.py:70 | Finds the first occurrence of a separator, and no earlier position matches. `None` means the separator occurs nowhere. |
| Strings.AfterFirst | src/fin_classifier/classifier.py:70 | For a non-empty separator, `split(sep, 1)[1]` exists exactly when `sep` occurs in the text. Python rejects an empty separator, so callers may not pass one. |
| Strings.JoinQuotedMentions | src/fin_classifier/conditions.py:138 | Each term can be read in the quoted, separator-joined list. |
| Models.NewTransaction | src/fin_classifier/models.py:10-26 | Construction succeeds iff the description is a string and the amount an int, float or bool. A non-string description raises TypeError "description deve ser string" first. Otherwise a non-numeric amount raises "amount deve ser numérico". A success stores all four fields unchanged and is well-typed. |
| Models.NewTransactionDefaults | src/fin_classifier/models.py:14-26 | Any description with any amount, negative or zero included, makes a transaction with no date and empty metadata. |
| Models.ClassificationResultDefaults | src/fin_classifier/models.py:29-37 | Without the optional arguments, the confidence is 1.0 and the matched conditions are empty. |
| Models.ToStringMentionsFields | src/fin_classifier/models.py:39-40 | `str(result)` contains the category, the priority and the rule name. |
| Conditions.Condition.AndWith | src/fin_classifier/conditions.py:63-71 | `a & b` matches iff both match. It is well formed iff both operands are. |
| Conditions.Condition.OrWith | src/fin_classifier/conditions.py:77-85 | `a \| b` matches iff at least one operand matches. It is well formed iff both operands are. |
| Conditions.Condition.Invert | src/fin_classifier/conditions.py:91-98 | `~a` matches iff `a` does not. |
| Conditions.AllTerms | src/fin_classifier/conditions.py:135 | `all(...)` over the terms holds iff every normalised term passes. |
| Conditions.AnyTerm | src/fin_classifier/conditions.py:147 | `any(...)` over the terms holds iff some normalised term passes. |
| Conditions.EvaluateText | src/fin_classifier/conditions.py:121-183 | A text test never raises on a string description. |
| Conditions.Evaluate | src/fin_classifier/conditions.py:63-291 | `matches` of every kind of condition. AND and OR short-circuit. It raises only on a field of the wrong type, and never on a well-typed transaction. |
| Conditions.NewText | src/fin_classifier/conditions.py:113-119 | A text condition is built iff at least one term is given. Otherwise ValueError "Pelo menos um termo deve ser fornecido". |
| Conditions.TextContains | src/fin_classifier/conditions.py:130-135 | Fails iff there are no terms. Otherwise it matches iff every normalised term occurs in the normalised description. |
| Conditions.TextAnyOf | src/fin_classifier/conditions.py:142-147 | Fails iff there are no terms. Otherwise it matches iff some normalised term occurs in the normalised description. |
| Conditions.TextStartsWith | src/fin_classifier/conditions.py:154-159 | Fails iff there are no terms. Otherwise it matches iff the normalised description starts with some normalised term. |
| Conditions.TextEndsWith | src/fin_classifier/conditions.py:166-171 | Fails iff there are no terms. Otherwise it matches iff the normalised description ends with some normalised term. |
| Conditions.TextEquals | src/fin_classifier/conditions.py:178-183 | Fails iff there are no terms. Otherwise it matches iff the normalised description equals some normalised term. |
| Conditions.AmountGt | src/fin_classifier/conditions.py:208-212 | Matches iff amount > value. |
| Conditions.AmountLt | src/fin_classifier/conditions.py:215-219 | Matches iff amount < value. |
| Conditions.AmountGte | src/fin_classifier/conditions.py:222-226 | Matches iff amount >= value. |
| Conditions.AmountLte | src/fin_classifier/conditions.py:229-233 | Matches iff amount <= value. |
| Conditions.AmountEq | src/fin_classifier/conditions.py:236-241 | Matches iff the amount is strictly closer to the value than the tolerance. The default tolerance is 0.01. |
| Conditions.AmountBetween | src/fin_classifier/conditions.py:247-258 | Raises ValueError "min_value deve ser menor ou igual a max_value" iff min > max. Otherwise it matches iff min <= amount <= max, both ends included. |
| Conditions.AmountPositive | src/fin_classifier/conditions.py:264-268 | Matches iff amount > 0. |
| Conditions.AmountNegative | src/fin_classifier/conditions.py:274-278 | Matches iff amount < 0. |
| Conditions.DoubleNegation | src/fin_classifier/conditions.py:55-57 | `~~a` matches exactly what `a` matches. |
| Conditions.ShortCircuit | src/fin_classifier/conditions.py:70-85 | A false left operand decides AND, and a true one decides OR, even if the right operand would raise. A raising left operand makes both raise the same exception. |
| Conditions.SignsPartition | src/fin_classifier/conditions.py:264-278 | Zero is neither positive nor negative. No amount is both. |
| Conditions.ToleranceIsStrict | src/fin_classifier/conditions.py:239-241 | An amount exactly one tolerance away does not match. A zero or negative tolerance never matches. |
| Conditions.CaseInsensitiveByDefault | src/fin_classifier/conditions.py:121-127 | Without `case_sensitive`, descriptions and terms that agree after lower-casing give the same answer. |
| Conditions.CaseSensitiveDistinguishes | src/fin_classifier/conditions.py:121-123 | With `case_sensitive=True`, "B" is found in "B" but not in "b". |
| Conditions.DescribeAnd | src/fin_classifier/conditions.py:73-74 | The text of `a & b` contains the texts of `a` and `b` and " AND ". |
| Conditions.DescribeOr | src/fin_classifier/conditions.py:87-88 | The text of `a \| b` contains the texts of `a` and `b` and " OR ". |
| Conditions.DescribeNot | src/fin_classifier/conditions.py:100-101 | The text of `~a` starts with "NOT (" and contains the text of `a`. |
| Conditions.DescribeMentionsTerms | src/fin_classifier/conditions.py:137-187 | Every term of every text test in a tree appears in the tree's description. |
| Classifiers.RuleMatches | src/fin_classifier/classifier.py:23-30 | On a well-typed transaction it is the condition's verdict. When evaluation raises, it is False instead of an exception. |
| Classifiers.Rule.constructor | src/fin_classifier/classifier.py:17-21 | Without a condition the rule gets AlwaysTrue. Category and priority start unset, and the rule is not validated. |
| Classifiers.RuleWithoutConditionMatchesAll | src/fin_classifier/classifier.py:17-18 | A rule with the default condition matches every transaction. |
| Classifiers.Rule.Describe | src/fin_classifier/classifier.py:32-34 | Starts with "Rule(category=". Contains the category (or "None"), the priority (or "None") and the condition's description. |
| Classifiers.Rule.Validate | src/fin_classifier/classifier.py:36-44 | Raises "Regra deve ter uma categoria definida" when the category is unset. Otherwise it raises "Regra deve ter uma prioridade definida" when the priority is unset. Otherwise it marks the rule validated. Only `validated` can change. |
| Classifiers.StripUnderscores | src/fin_classifier/classifier.py:68 | The class name with its leading underscores removed, as name mangling uses it. |
| Classifiers.CategoryName | src/fin_classifier/classifier.py:70 | The category is what follows the class's mangling prefix in the attribute name. |
| Classifiers.MangledCategoryRoundTrip | src/fin_classifier/classifier.py:66-70 | A private attribute `__c` of a class (not named only with underscores) is picked up, and its category is exactly `c`. |
| Classifiers.Declarations | src/fin_classifier/classifier.py:66-68 | The entries registration picks up. There are at most as many as entries, and all of them carry the class's prefix. |
| Classifiers.DeclarationsComplete | src/fin_classifier/classifier.py:66-68 | Every Rule under a private name of the class is among the declarations. |
| Classifiers.DeclaredPositions | src/fin_classifier/classifier.py:66-68 | The declarations are the namespace entries at increasing positions. Each of those entries is a Rule under the class's prefix, and every such entry's position is included. So the declarations are the namespace filtered by the prefix test, in definition order. |
| Classifiers.AllDeclared | src/fin_classifier/classifier.py:66-68 | When every entry is a Rule under a private name, all of them are registered, in order. |
| Classifiers.Register | src/fin_classifier/classifier.py:62-80 | The list holds exactly the Rule values under the class's private names, in definition order. Each rule is validated. Its priority is the position of its last registration, and its category is the matching attribute name minus the prefix. |
| Classifiers.RegisterEntry | src/fin_classifier/classifier.py:68-77 | One loop iteration. A Rule under a private name of the class is appended to the list; any other entry leaves the list as it was. The registration state holds afterwards for the declarations including this entry. |
| Classifiers.Configure | src/fin_classifier/classifier.py:73-75 | The rule's category and priority are the values given, and validation succeeds, so the rule is marked validated. |
| Classifiers.LastIndexOfDistinct | src/fin_classifier/classifier.py:74 | Without repeated rule objects, each rule's last position is its own position, so priorities are 0, 1, 2, …. |
| Classifiers.Registered | src/fin_classifier/classifier.py:66-77 | Registration of distinct rules gives consecutive priorities 0, 1, 2, … in definition order. Each category, after the prefix, rebuilds its attribute name. |
| Classifiers.Classifier.constructor | src/fin_classifier/classifier.py:62-83 | Building a classifier class registers its rules, and every rule ends up configured. Without repeated rule objects the rules are exactly `Registered`. |
| Classifiers.CategoryAsWritten | src/fin_classifier/classifier.py:70 | The category as the code computes it exists iff "__" occurs in the attribute name. |
| Classifiers.AsWrittenAgrees | src/fin_classifier/classifier.py:68-70 | For class names that neither start nor end with "_" and have no "__", the code as written and the corrected registration agree. |
| Classifiers.LeadingUnderscoreClassFinding | src/fin_classifier/classifier.py:68 | A class named `_X` never registers its private rules as written. The corrected prefix registers them under the right category. |
| Classifiers.TrailingUnderscoreClassFinding | src/fin_classifier/classifier.py:70 | In a class named `X_`, the code as written gives `__c` the category `_c`. The corrected registration gives `c`. |
| Classifiers.FirstMatch | src/fin_classifier/classifier.py:131-138 | Returns the lowest position whose rule matches, and no earlier rule matches. `None` means no rule matches. |
| Classifiers.Fallback | src/fin_classifier/classifier.py:141-146 | The fallback result has confidence 0.0 and no matched conditions. |
| Classifiers.MatchResult | src/fin_classifier/classifier.py:133-138 | A match result has confidence 1.0. |
| Classifiers.Classification | src/fin_classifier/classifier.py:126-146 | Raises ValueError "<class> não possui regras definidas" iff there are no rules. |
| Classifiers.FirstMatchWins | src/fin_classifier/classifier.py:131-138 | When rule k is the first match, the result has rule k's category, priority and category as rule name. Its confidence is 1.0 and its matched conditions are rule k's description. |
| Classifiers.FallbackIffNoMatch | src/fin_classifier/classifier.py:140-146 | The result is ("não_classificado", 999, "fallback", 0.0, []) iff no rule matches. |
| Classifiers.CatchAllPreventsFallback | src/fin_classifier/classifier.py:140 | If some rule has no condition, the result comes from that rule or an earlier one, with confidence 1.0. |
| Classifiers.FaultyRuleSkipped | src/fin_classifier/classifier.py:23-30 | A first rule whose evaluation raises is passed over as if it were absent. |
| Classifiers.PriorityIsPosition | src/fin_classifier/classifier.py:74 | With registered rules, a result's priority is the matching rule's position, and its rule name is its category. |
| Classifiers.ClassificationBatch | src/fin_classifier/classifier.py:148-151 | A successful batch has one result per transaction. |
| Classifiers.BatchIsPointwise | src/fin_classifier/classifier.py:148-151 | The batch raises iff there are no rules and at least one transaction. Otherwise its i-th result is the classification of the i-th transaction. |
| Classifiers.Classifier.Classify | src/fin_classifier/classifier.py:111-146 | The scan with early return computes `Classification` of the rules' current categories and priorities. |
| Classifiers.Classifier.ClassifyBatch | src/fin_classifier/classifier.py:148-151 | The loop of classifications computes `ClassificationBatch`. |
| Classifiers.Classifier.GetRules | src/fin_classifier/classifier.py:153-156 | Returns a new list with the registered rules in order. |
| Scenarios.SampleRegistration | tests/conftest.py:53-71 | Registering `SampleClassifier` works from the ten rules stored under the mangled names of `__ativo_juros` … `__outros`. It gives each rule its attribute's category and its position 0 to 9 as priority, which is the list the scenario lemmas classify with. |
| Scenarios.ExpenseExcludesCustody | tests/conftest.py:60 | The expense rule refuses any description mentioning "custodia". |
| Scenarios.TaxesTakeCustody | tests/conftest.py:61-63 | The tax rule takes any negative amount whose description mentions "custodia". |
| Scenarios.InterestTakesCriInterest | tests/conftest.py:56 | The interest rule takes a positive amount whose description mentions "cri" and "juros". |
| Scenarios.RedemptionTakesResgate | tests/conftest.py:68-70 | The redemption rule takes a positive amount whose description mentions "resgate". |
| Scenarios.CustodyIsTaxNotExpense | tests/integration/test_classifier.py:73-80 | A negative transaction mentioning "custodia" goes to `taxas_impostos` (priority 5), not to `despesas`. |
| Scenarios.EarlierRuleWins | tests/integration/test_classifier.py:143-151 | A positive "cri … juros … resgate" transaction matches both `ativo_juros` and `resgates`. The result is `ativo_juros` with priority 0. |
| Scenarios.ZeroAmountFallsThrough | tests/integration/test_edge_cases.py:22-28 | A zero amount, whatever the description, goes to `outros` (priority 9). |
| Scenarios.MixedCaseMatchesByDefault | tests/unit/test_text_conditions.py:24-29 | `Text.contains("banco")` matches "BaNcO". |

## Left out

- The `print` in `Rule.matches` (classifier.py:29) is console output. Only its outcome, "no match", is modelled.
- `describe_rules` and `Rule.__repr__` only format diagnostics. `__repr__` also depends on Python's `repr` quoting.
- Floating point: amounts, values and tolerances are exact reals, so rounding at a boundary is not captured.
- `Strings.Lower` lower-cases only ASCII and Latin-1 letters. Other Unicode case mappings of `str.lower` are not modelled.
- How `describe` prints a number is left to the `show` parameter.
- The metaclass machinery (`type.__new__`, `ClassVar`, inheritance of `_rules`) is not modelled. A classifier class is its name and its namespace in definition order, with attribute names as Python stores them after mangling.
- The TypeError of `__and__`/`__or__` for a non-Condition operand cannot arise, because of Dafny's typing.
- `date` and `metadata` are never read by the classifier and are carried as opaque values.
- Classifiers.Classifier.Classify: requires every rule to have a category and a priority, which registration guarantees. Setting them back to None after registration is not modelled.
- Classifiers.Rule.constructor: the condition is fixed at construction. The code never reassigns it.
- Classifiers.Register: a namespace is a sequence and could list a name twice. A class body is a dictionary, so such a namespace does not arise. A name bound twice appears once, at its first position, with its last value.
- Conditions.Evaluate: a description or amount can be a string, int, float, bool or None only. Other Python objects are not modelled.

## Findings

| source | as written | input that shows it | evidently intended | confidence | as-written member | corrected member |
|---|---|---|---|---|---|---|
| src/fin_classifier/classifier.py:68 | Registers attributes that start with `"_" + name + "__"` | Class `_Interno` declaring `__taxas`. Python stores it as `_Interno__taxas`, which does not start with `__Interno__`, so the class has no rules and `classify` raises. | Test the prefix Python actually produces: `"_" + name.lstrip("_") + "__"` | high, not executed | Classifiers.LeadingUnderscoreClassFinding | Classifiers.MangledCategoryRoundTrip |
| src/fin_classifier/classifier.py:70 | Category = text after the first `"__"` of the attribute name | Class `Regras_` declaring `__taxas`. The stored name is `_Regras___taxas`, whose first `"__"` starts inside the class name, giving category `_taxas`. | Category = text after the class's prefix, i.e. `taxas` | high, not executed | Classifiers.TrailingUnderscoreClassFinding | Classifiers.CategoryName |
