/**
 * Rules and first-match classification (src/fin_classifier/classifier.py).
 *
 * A `Rule` is a mutable object: its category, priority and validation flag are
 * written after construction, by the metaclass that registers it. The metaclass
 * becomes `Register`, a loop over the class namespace in declaration order; a
 * classifier class becomes a `Classifier` object holding the class name and the
 * registered rules. Classification itself is a pure function of the rules' current
 * fields (`Classification`), which the `Classify` loop is proved to compute.
 */
module Classifiers {
  import opened Results
  import opened Strings
  import opened Models
  import opened Conditions

  const NoCategoryMessage: string := "Regra deve ter uma categoria definida"
  const NoPriorityMessage: string := "Regra deve ter uma prioridade definida"
  const NoRulesSuffix: string := " não possui regras definidas"
  const Unclassified: string := "não_classificado"
  const FallbackPriority: int := 999
  const FallbackRuleName: string := "fallback"

  /**
   * `Rule.matches`: the condition's verdict, where an exception raised while
   * evaluating it counts as "does not match" instead of reaching the caller.
   */
  function RuleMatches(condition: Condition, t: Transaction): (b: bool)
    ensures t.WellTyped() ==> (b <==> Matches(condition, t))
    ensures Evaluate(condition, t).Failure? ==> !b
  {
    Evaluate(condition, t) == Success(true)
  }

  /** `str(x)` of an optional text or number, as an f-string shows it. */
  function OptionalText(s: Option<string>): string {
    match s
    case None => "None"
    case Some(v) => v
  }

  function OptionalInt(p: Option<int>): string {
    match p
    case None => "None"
    case Some(v) => IntToString(v)
  }

  class Rule {
    const condition: Condition
    var category: Option<string>
    var priority: Option<int>
    var validated: bool

    /** `Rule(condition=None)`: without a condition the rule matches everything;
        category and priority are unset until the rule is registered. */
    constructor (condition: Option<Condition>)
      ensures this.condition == (if condition.Some? then condition.value else AlwaysTrue)
      ensures category == None && priority == None && !validated
    {
      this.condition := if condition.Some? then condition.value else AlwaysTrue;
      category := None;
      priority := None;
      validated := false;
    }

    /** Both fields the registration sets are present. */
    predicate Configured()
      reads this
    {
      category.Some? && priority.Some?
    }

    /** `describe()`: names the category (or None), the priority (or None) and the
        condition's own description. */
    function Describe(show: real -> string): (r: string)
      reads this
      ensures "Rule(category=" <= r
      ensures IsSubstring(OptionalText(category), r)
      ensures IsSubstring(OptionalInt(priority), r)
      ensures IsSubstring(Conditions.Describe(condition, show), r)
    {
      var c, p, d := OptionalText(category), OptionalInt(priority), Conditions.Describe(condition, show);
      SubstringOfSeven("Rule(category=", c, ", priority=", p, ", condition=", d, ")");
      "Rule(category=" + c + ", priority=" + p + ", condition=" + d + ")"
    }

    /** `validate()`: raises if the category is unset, else if the priority is unset,
        else marks the rule validated. Nothing else changes. */
    method Validate() returns (error: Option<Error>)
      modifies this`validated
      ensures category.None? ==> error == Some(ValueError(NoCategoryMessage)) && validated == old(validated)
      ensures category.Some? && priority.None? ==>
                error == Some(ValueError(NoPriorityMessage)) && validated == old(validated)
      ensures Configured() ==> error == None && validated
    {
      if category.None? {
        return Some(ValueError(NoCategoryMessage));
      }
      if priority.None? {
        return Some(ValueError(NoPriorityMessage));
      }
      validated := true;
      return None;
    }
  }

  /** A rule built without a condition matches every transaction, well-typed or not. */
  lemma RuleWithoutConditionMatchesAll(rule: Rule, t: Transaction)
    requires rule.condition == AlwaysTrue
    ensures RuleMatches(rule.condition, t)
  {
  }

  // ===== Registration (ClassifierMeta.__new__) =====

  /** A value in the class namespace: a Rule object or anything else. */
  datatype Attribute = RuleValue(rule: Rule) | OtherValue

  /** The class namespace in definition order: attribute names (after Python's name
      mangling) and their values. A class body is a dictionary, so each name appears
      once: a name bound twice keeps its first position and its last value, and the
      namespace lists it once with that value. */
  type Namespace = seq<(string, Attribute)>

  /** A registered attribute: its (mangled) name and its rule. */
  datatype Declaration = Declaration(attribute: string, rule: Rule)

  /** The class name without its leading underscores, as name mangling uses it. */
  function StripUnderscores(s: string): (r: string)
    ensures |r| <= |s| && r == s[|s| - |r|..]
    ensures |r| > 0 ==> r[0] != '_'
    ensures forall i :: 0 <= i < |s| - |r| ==> s[i] == '_'
  {
    if |s| > 0 && s[0] == '_' then
      StripUnderscores(s[1..])
    else
      s
  }

  /**
   * How Python stores an attribute `name` declared in the body of class `className`:
   * a private name (two leading underscores, not ending in two) becomes
   * `"_" + className.lstrip("_") + name`, unless the class name is all underscores.
   */
  function Mangle(className: string, name: string): string {
    if "__" <= name && !IsSuffix("__", name) && StripUnderscores(className) != "" then
      "_" + StripUnderscores(className) + name
    else
      name
  }

  /** The start of every mangled private attribute of class `className`. */
  function Prefix(className: string): string {
    "_" + StripUnderscores(className) + "__"
  }

  /** Whether the registration picks up this namespace entry: a Rule under a private
      attribute name of this class. */
  predicate IsDeclared(className: string, entry: (string, Attribute)) {
    entry.1.RuleValue? && Prefix(className) <= entry.0
  }

  /** The category of a registered attribute: its name after the mangling prefix, that
      is, the name the author wrote without its two leading underscores. */
  function CategoryName(className: string, attribute: string): (category: string)
    requires Prefix(className) <= attribute
    ensures Prefix(className) + category == attribute
  {
    attribute[|Prefix(className)|..]
  }

  /** A private name `"__" + c` declared in a class whose name is not all underscores
      is registered under category `c`. */
  lemma MangledCategoryRoundTrip(className: string, c: string)
    requires StripUnderscores(className) != ""
    requires !IsSuffix("__", "__" + c)
    ensures Mangle(className, "__" + c) == Prefix(className) + c
    ensures CategoryName(className, Mangle(className, "__" + c)) == c
  {
    var stripped := StripUnderscores(className);
    var name := "__" + c;
    assert name[..2] == "__";
    var mangled := "_" + stripped + name;
    assert Mangle(className, name) == mangled;
    assert mangled == Prefix(className) + c;
    assert mangled[|Prefix(className)|..] == c;
  }

  /** The registered entries of a namespace, in definition order. */
  function Declarations(className: string, ns: Namespace): (ds: seq<Declaration>)
    ensures |ds| <= |ns|
    ensures forall k :: 0 <= k < |ds| ==> Prefix(className) <= ds[k].attribute
  {
    if |ns| == 0 then
      []
    else
      var last := ns[|ns| - 1];
      Declarations(className, ns[..|ns| - 1])
      + (if IsDeclared(className, last) then [Declaration(last.0, last.1.rule)] else [])
  }

  /** Registration misses nothing: every Rule under a private name of the class is
      among the declarations. */
  lemma {:induction false} DeclarationsComplete(className: string, ns: Namespace)
    ensures forall i :: 0 <= i < |ns| && IsDeclared(className, ns[i]) ==>
              Declaration(ns[i].0, ns[i].1.rule) in Declarations(className, ns)
  {
    if |ns| > 0 {
      var init := ns[..|ns| - 1];
      DeclarationsComplete(className, init);
      assert forall i :: 0 <= i < |init| ==> init[i] == ns[i];
    }
  }

  /** When every entry of the namespace is a Rule under a private name of the class,
      registration takes all of them, in definition order. */
  lemma {:induction false} AllDeclared(className: string, ns: Namespace)
    requires forall i :: 0 <= i < |ns| ==> IsDeclared(className, ns[i])
    ensures |Declarations(className, ns)| == |ns|
    ensures forall k :: 0 <= k < |ns| ==>
              IsDeclared(className, ns[k]) && Declarations(className, ns)[k] == Declaration(ns[k].0, ns[k].1.rule)
  {
    if |ns| > 0 {
      var init := ns[..|ns| - 1];
      assert forall i :: 0 <= i < |init| ==> init[i] == ns[i];
      AllDeclared(className, init);
    }
  }

  /** A name ending in a character other than `_` does not end with `"__"`, so Python
      mangles it when it starts with `"__"`. */
  lemma NotDunderSuffix(c: string)
    requires |c| > 0 && c[|c| - 1] != '_'
    ensures !IsSuffix("__", "__" + c)
  {
    var name := "__" + c;
    assert name[|name| - 1] == c[|c| - 1];
  }

  /** One more namespace entry adds at most its own declaration. */
  lemma DeclarationsSnoc(className: string, ns: Namespace, i: nat)
    requires i < |ns|
    ensures Declarations(className, ns[..i + 1]) == Declarations(className, ns[..i])
              + (if IsDeclared(className, ns[i]) then [Declaration(ns[i].0, ns[i].1.rule)] else [])
  {
    assert ns[..i + 1][..i] == ns[..i];
  }

  /** The declarations are the entries of `ns` at the positions `pos`, each of them a
      Rule under a private name of the class. */
  ghost predicate PositionsMatch(className: string, ns: Namespace, pos: seq<nat>) {
    var ds := Declarations(className, ns);
    && |pos| == |ds|
    && forall k :: 0 <= k < |pos| ==>
         && pos[k] < |ns|
         && IsDeclared(className, ns[pos[k]])
         && ds[k] == Declaration(ns[pos[k]].0, ns[pos[k]].1.rule)
  }

  /** The positions increase, so the declarations keep definition order. */
  ghost predicate PositionsIncrease(pos: seq<nat>) {
    forall j, k :: 0 <= j < k < |pos| ==> pos[j] < pos[k]
  }

  /** Every entry that is a Rule under a private name of the class has its position
      listed. */
  ghost predicate PositionsCover(className: string, ns: Namespace, pos: seq<nat>) {
    forall i :: 0 <= i < |ns| && IsDeclared(className, ns[i]) ==> i in pos
  }

  /** The positions in `ns` of the entries registration picks up: `Declarations` is
      `ns` filtered by `IsDeclared`, in definition order. */
  ghost function DeclaredPositions(className: string, ns: Namespace): (pos: seq<nat>)
    ensures PositionsMatch(className, ns, pos)
    ensures PositionsIncrease(pos)
    ensures PositionsCover(className, ns, pos)
  {
    if |ns| == 0 then
      []
    else
      var rest := DeclaredPositions(className, ns[..|ns| - 1]);
      MatchExtends(className, ns, rest);
      IncreaseExtends(className, ns, rest);
      CoverExtends(className, ns, rest);
      rest + (if IsDeclared(className, ns[|ns| - 1]) then [|ns| - 1] else [])
  }

  lemma MatchExtends(className: string, ns: Namespace, rest: seq<nat>)
    requires |ns| > 0 && PositionsMatch(className, ns[..|ns| - 1], rest)
    ensures PositionsMatch(className, ns,
              rest + (if IsDeclared(className, ns[|ns| - 1]) then [|ns| - 1] else []))
  {
    var last := |ns| - 1;
    var init := ns[..last];
    var pos := rest + (if IsDeclared(className, ns[last]) then [last] else []);
    DeclarationsSnoc(className, ns, last);
    assert ns[..last + 1] == ns;
    var before, ds := Declarations(className, init), Declarations(className, ns);
    forall k | 0 <= k < |pos|
      ensures pos[k] < |ns| && IsDeclared(className, ns[pos[k]])
      ensures ds[k] == Declaration(ns[pos[k]].0, ns[pos[k]].1.rule)
    {
      if k < |rest| {
        assert pos[k] == rest[k] && ds[k] == before[k];
        assert ns[rest[k]] == init[rest[k]];
      }
    }
  }

  lemma IncreaseExtends(className: string, ns: Namespace, rest: seq<nat>)
    requires |ns| > 0 && PositionsIncrease(rest)
    requires forall k :: 0 <= k < |rest| ==> rest[k] < |ns| - 1
    ensures PositionsIncrease(rest + (if IsDeclared(className, ns[|ns| - 1]) then [|ns| - 1] else []))
  {
  }

  lemma CoverExtends(className: string, ns: Namespace, rest: seq<nat>)
    requires |ns| > 0 && PositionsCover(className, ns[..|ns| - 1], rest)
    ensures PositionsCover(className, ns,
              rest + (if IsDeclared(className, ns[|ns| - 1]) then [|ns| - 1] else []))
  {
    var last := |ns| - 1;
    var init := ns[..last];
    forall i | 0 <= i < last && IsDeclared(className, ns[i])
      ensures i in rest
    {
      assert init[i] == ns[i];
    }
  }

  /** The rule objects the registration configures. */
  function DeclaredRules(className: string, ns: Namespace): set<Rule> {
    set i | 0 <= i < |ns| && IsDeclared(className, ns[i]) :: ns[i].1.rule
  }

  /** The position of the last occurrence of `x` in `s`. */
  function LastIndex<T(==)>(s: seq<T>, x: T): (k: nat)
    requires x in s
    ensures k < |s| && s[k] == x
    ensures forall j :: k < j < |s| ==> s[j] != x
  {
    if s[|s| - 1] == x then |s| - 1 else LastIndex(s[..|s| - 1], x)
  }

  /** No rule object is registered twice. */
  predicate Distinct(rules: seq<Rule>) {
    forall j, k :: 0 <= j < k < |rules| ==> rules[j] != rules[k]
  }

  /** In a sequence without repetitions each element's last position is its position. */
  lemma LastIndexOfDistinct(rules: seq<Rule>, k: nat)
    requires Distinct(rules) && k < |rules|
    ensures LastIndex(rules, rules[k]) == k
  {
  }

  /** The rule at position `k` carries the configuration of its last registration. */
  ghost predicate ConfiguredAsLast(className: string, decls: seq<Declaration>, rules: seq<Rule>, k: nat)
    requires |rules| == |decls| && k < |rules|
    reads rules[k]
  {
    var last := LastIndex(rules, rules[k]);
    && rules[k].priority == Some(last)
    && rules[k].category.Some?
    && Prefix(className) + rules[k].category.value == decls[last].attribute
    && rules[k].validated
  }

  /** Appending `x` makes it its own last occurrence and moves no other last
      occurrence. */
  lemma LastIndexAppend<T>(s: seq<T>, x: T, y: T)
    requires y in s + [x]
    ensures LastIndex(s + [x], y) == if y == x then |s| else LastIndex(s, y)
  {
    if y != x {
      assert (s + [x])[..|s|] == s;
    }
  }

  /** Registering one more rule, configured from its attribute, keeps every rule
      configured from its last registration. */
  lemma AppendConfigured(className: string, decls: seq<Declaration>, rules: seq<Rule>, rule: Rule, attribute: string)
    requires |rules| == |decls|
    requires forall k :: 0 <= k < |rules| && rules[k] != rule ==> ConfiguredAsLast(className, decls, rules, k)
    requires rule.priority == Some(|rules|) && rule.category.Some? && rule.validated
    requires Prefix(className) + rule.category.value == attribute
    ensures forall k :: 0 <= k <= |rules| ==>
              ConfiguredAsLast(className, decls + [Declaration(attribute, rule)], rules + [rule], k)
  {
    var rules', decls' := rules + [rule], decls + [Declaration(attribute, rule)];
    forall k | 0 <= k <= |rules|
      ensures ConfiguredAsLast(className, decls', rules', k)
    {
      LastIndexAppend(rules, rule, rules'[k]);
      if rules'[k] != rule {
        assert rules'[k] == rules[k];
        assert ConfiguredAsLast(className, decls, rules, k);
      }
    }
  }

  /** One step of the registration: the rule gets its category and its priority, and
      passes validation. */
  method Configure(rule: Rule, category: string, priority: nat)
    modifies rule
    ensures rule.category == Some(category)
    ensures rule.priority == Some(priority)
    ensures rule.validated
  {
    rule.category := Some(category);
    rule.priority := Some(priority);
    var error := rule.Validate();
    assert error.None?;
  }

  /**
   * The registration loop of `ClassifierMeta.__new__`: every Rule under a private
   * name of the class, in definition order, gets its category from its attribute
   * name and the number of rules registered before it as priority, is validated and
   * is appended to the list. A Rule object bound to two names is configured twice
   * and keeps its last configuration.
   */
  /** The registration state after a prefix of the namespace: the rules of the
      declarations so far, in order, each configured from its last registration. */
  ghost predicate RegisteredSoFar(className: string, decls: seq<Declaration>, rules: seq<Rule>)
    reads rules
  {
    && |rules| == |decls|
    && (forall k :: 0 <= k < |rules| ==> rules[k] == decls[k].rule)
    && (forall k :: 0 <= k < |rules| ==> ConfiguredAsLast(className, decls, rules, k))
  }

  /** One iteration of the registration loop: a declared entry's rule gets its category
      and the next priority and is appended; any other entry is skipped. */
  method RegisterEntry(className: string, entry: (string, Attribute), ghost decls: seq<Declaration>, rules: seq<Rule>)
    returns (rules': seq<Rule>)
    requires RegisteredSoFar(className, decls, rules)
    modifies if IsDeclared(className, entry) then {entry.1.rule} else {}
    ensures rules' == if IsDeclared(className, entry) then rules + [entry.1.rule] else rules
    ensures RegisteredSoFar(className,
              decls + (if IsDeclared(className, entry) then [Declaration(entry.0, entry.1.rule)] else []),
              rules')
  {
    var (attribute, value) := entry;
    if value.RuleValue? && Prefix(className) <= attribute {
      var rule := value.rule;
      Configure(rule, CategoryName(className, attribute), |rules|);
      AppendConfigured(className, decls, rules, rule, attribute);
      rules' := rules + [rule];
    } else {
      rules' := rules;
      assert decls + [] == decls;
    }
  }

  method Register(className: string, ns: Namespace) returns (rules: seq<Rule>)
    modifies DeclaredRules(className, ns)
    ensures var decls := Declarations(className, ns);
            && |rules| == |decls|
            && (forall k :: 0 <= k < |rules| ==> rules[k] == decls[k].rule)
            && (forall k :: 0 <= k < |rules| ==> ConfiguredAsLast(className, decls, rules, k))
  {
    rules := [];
    for i := 0 to |ns|
      invariant RegisteredSoFar(className, Declarations(className, ns[..i]), rules)
    {
      DeclarationsSnoc(className, ns, i);
      assert IsDeclared(className, ns[i]) ==> ns[i].1.rule in DeclaredRules(className, ns);
      rules := RegisterEntry(className, ns[i], Declarations(className, ns[..i]), rules);
    }
    assert ns[..|ns|] == ns;
  }

  /** What registration yields for a namespace whose rule objects are all distinct. */
  function Registered(className: string, ns: Namespace): (views: seq<RuleView>)
    ensures |views| == |Declarations(className, ns)|
    ensures forall k :: 0 <= k < |views| ==>
              && views[k].priority == k
              && Prefix(className) + views[k].category == Declarations(className, ns)[k].attribute
  {
    var decls := Declarations(className, ns);
    seq(|decls|, k requires 0 <= k < |decls| =>
      RuleView(decls[k].rule.condition, CategoryName(className, decls[k].attribute), k))
  }

  // ===== Findings: the category name as the source derives it =====

  /** Line 68 as written: the prefix tested is built from the class name as is. */
  predicate IsDeclaredAsWritten(className: string, entry: (string, Attribute)) {
    entry.1.RuleValue? && ("_" + className + "__") <= entry.0
  }

  /** Line 70 as written: the text after the first `"__"` of the mangled name. */
  function CategoryAsWritten(attribute: string): (category: Option<string>)
    ensures category.Some? <==> IsSubstring("__", attribute)
  {
    AfterFirst(attribute, "__")
  }

  /** When `"__"` cannot be found in `"_" + className + "_"` (the class name neither
      starts nor ends with `_` and has no `__`), the code as written agrees with the
      corrected definitions. */
  lemma {:induction false} AsWrittenAgrees(className: string, c: string)
    requires forall j: nat :: !OccursAt("__", "_" + className + "_", j)
    ensures StripUnderscores(className) == className
    ensures Prefix(className) == "_" + className + "__"
    ensures CategoryAsWritten("_" + className + "__" + c) == Some(c)
  {
    var head := "_" + className + "_";
    if |className| > 0 {
      assert !OccursAt("__", head, 0);
      assert head[0..2] == ['_', className[0]];
    }
    SplitAtFirstSeparator(head, c);
    assert head + "_" + c == "_" + className + "__" + c;
  }

  /** The first `"__"` of `head + "_" + tail`, when `head` ends with `_` and has no
      `"__"` of its own, is the one that closes `head`. */
  lemma SplitAtFirstSeparator(head: string, tail: string)
    requires |head| > 0 && head[|head| - 1] == '_'
    requires forall j: nat :: !OccursAt("__", head, j)
    ensures AfterFirst(head + "_" + tail, "__") == Some(tail)
  {
    var s := head + "_" + tail;
    var p := |head| - 1;
    assert s[p..p + 2] == "__";
    assert OccursAt("__", s, p);
    forall j: nat | j < p
      ensures !OccursAt("__", s, j)
    {
      assert !OccursAt("__", head, j);
      assert s[j..j + 2] == head[j..j + 2];
    }
    FirstOccurrence(s, "__", p);
    assert s[p + 2..] == tail;
  }

  /** A class whose name starts with `_` (say `_Interno`): Python stores `__taxas` as
      `_Interno__taxas`, which the prefix as written (`__Interno__`) does not match, so
      the rule is never registered; the corrected prefix registers it under `taxas`. */
  lemma LeadingUnderscoreClassFinding(base: string, c: string, rule: Rule)
    requires |base| > 0 && base[0] != '_'
    requires !IsSuffix("__", "__" + c)
    ensures var attribute := Mangle("_" + base, "__" + c);
            && !IsDeclaredAsWritten("_" + base, (attribute, RuleValue(rule)))
            && IsDeclared("_" + base, (attribute, RuleValue(rule)))
            && CategoryName("_" + base, attribute) == c
  {
    var className := "_" + base;
    LeadingUnderscorePrefix(base);
    MangledCategoryRoundTrip(className, c);
    var prefix := Prefix(className);
    var asWritten := "_" + className + "__";
    assert asWritten[1] == '_';
    DiffersAtSecond(asWritten, prefix, c);
  }

  /** One leading underscore is stripped from the class name before mangling, so the
      second character of the prefix is the first of `base`. */
  lemma LeadingUnderscorePrefix(base: string)
    requires |base| > 0 && base[0] != '_'
    ensures StripUnderscores("_" + base) == base
    ensures Prefix("_" + base) == "_" + base + "__"
    ensures |Prefix("_" + base)| > 1 && Prefix("_" + base)[1] != '_'
  {
    var className := "_" + base;
    assert className[1..] == base;
  }

  /** A text whose second character differs from that of `prefix` does not start with
      anything that extends `prefix`. */
  lemma DiffersAtSecond(text: string, prefix: string, c: string)
    requires |text| > 1 && |prefix| > 1 && text[1] != prefix[1]
    ensures !(text <= prefix + c)
  {
    assert (prefix + c)[1] == prefix[1];
  }

  /** A class whose name ends with `_` (say `Regras_`): `__taxas` is stored as
      `_Regras___taxas`, whose first `"__"` starts one character early, so the category
      as written is `_taxas`; the corrected one is `taxas`. */
  lemma {:induction false} TrailingUnderscoreClassFinding(base: string, c: string, rule: Rule)
    requires |base| > 0 && base[0] != '_'
    requires forall j: nat :: !OccursAt("__", "_" + base + "_", j)
    requires !IsSuffix("__", "__" + c)
    ensures var attribute := Mangle(base + "_", "__" + c);
            && IsDeclaredAsWritten(base + "_", (attribute, RuleValue(rule)))
            && CategoryAsWritten(attribute) == Some("_" + c)
            && CategoryName(base + "_", attribute) == c
  {
    var className := base + "_";
    TrailingUnderscoreMangled(base, c);
    MangledCategoryRoundTrip(className, c);
    SplitAtFirstSeparator("_" + base + "_", "_" + c);
  }

  /** A class name ending with `_` keeps that underscore, so the mangled name holds three
      underscores in a row after the class name. */
  lemma TrailingUnderscoreMangled(base: string, c: string)
    requires |base| > 0 && base[0] != '_'
    requires !IsSuffix("__", "__" + c)
    ensures StripUnderscores(base + "_") == base + "_"
    ensures Mangle(base + "_", "__" + c) == "_" + base + "_" + "_" + ("_" + c)
    ensures "_" + (base + "_") + "__" <= Mangle(base + "_", "__" + c)
  {
    var className := base + "_";
    assert StripUnderscores(className) == className;
    var prefix := "_" + className + "__";
    assert Prefix(className) == prefix;
    MangledCategoryRoundTrip(className, c);
    assert prefix <= prefix + c;
    Regroup('_', base, c);
  }

  /** Moving the separator's underscores from the class name to the category. */
  lemma Regroup<T>(u: T, b: seq<T>, c: seq<T>)
    ensures [u] + (b + [u]) + [u, u] + c == [u] + b + [u] + [u] + ([u] + c)
  {
    var left, right := [u] + (b + [u]) + [u, u] + c, [u] + b + [u] + [u] + ([u] + c);
    assert |left| == |right|;
    forall i | 0 <= i < |left|
      ensures left[i] == right[i]
    {
      if i > |b| + 3 {
        assert left[i] == c[i - |b| - 4] == right[i];
      }
    }
  }

  // ===== Classification (BaseClassifier.classify) =====

  /** A registered rule as classification reads it. */
  datatype RuleView = RuleView(condition: Condition, category: string, priority: int)

  /** The position of the first rule that matches, if any. */
  function FirstMatch(views: seq<RuleView>, t: Transaction): (r: Option<nat>)
    ensures r.Some? ==> r.value < |views| && RuleMatches(views[r.value].condition, t)
    ensures r.Some? ==> forall j :: 0 <= j < r.value ==> !RuleMatches(views[j].condition, t)
    ensures r.None? ==> forall j :: 0 <= j < |views| ==> !RuleMatches(views[j].condition, t)
  {
    if |views| == 0 then
      None
    else if RuleMatches(views[0].condition, t) then
      Some(0)
    else
      assert forall j :: 1 <= j < |views| ==> views[j] == views[1..][j - 1];
      match FirstMatch(views[1..], t)
      case Some(k) => Some(k + 1)
      case None => None
  }

  /** The result when no rule matches. */
  function Fallback(): (r: ClassificationResult)
    ensures r.confidence == 0.0 && r.matchedConditions == []
  {
    NewClassificationResult(Unclassified, FallbackPriority, FallbackRuleName, confidence := 0.0)
  }

  /** The result for a matching rule. */
  function MatchResult(view: RuleView, show: real -> string): (r: ClassificationResult)
    ensures r.confidence == 1.0
  {
    NewClassificationResult(view.category, view.priority, view.category,
                            matchedConditions := [Describe(view.condition, show)])
  }

  /** `classify(transaction)` on the rules of class `className`. */
  function Classification(className: string, views: seq<RuleView>, t: Transaction, show: real -> string)
    : (r: Result<ClassificationResult, Error>)
    ensures r.Failure? <==> |views| == 0
    ensures r.Failure? ==> r.error == ValueError(className + NoRulesSuffix)
  {
    if |views| == 0 then
      Failure(ValueError(className + NoRulesSuffix))
    else
      match FirstMatch(views, t)
      case Some(k) => Success(MatchResult(views[k], show))
      case None => Success(Fallback())
  }

  /** First match wins: the result is that of the lowest-positioned matching rule. */
  lemma FirstMatchWins(className: string, views: seq<RuleView>, t: Transaction, show: real -> string, k: nat)
    requires k < |views| && RuleMatches(views[k].condition, t)
    requires forall j :: 0 <= j < k ==> !RuleMatches(views[j].condition, t)
    ensures Classification(className, views, t, show) == Success(ClassificationResult(
              views[k].category, views[k].priority, views[k].category, 1.0,
              [Describe(views[k].condition, show)]))
  {
  }

  /** The fallback result is returned exactly when no rule matches. */
  lemma FallbackIffNoMatch(className: string, views: seq<RuleView>, t: Transaction, show: real -> string)
    requires |views| > 0
    ensures var r := Classification(className, views, t, show).value;
            (r == ClassificationResult(Unclassified, FallbackPriority, FallbackRuleName, 0.0, []))
            <==> forall j :: 0 <= j < |views| ==> !RuleMatches(views[j].condition, t)
  {
  }

  /** A rule without a condition catches every transaction that reaches it, so with
      such a rule the fallback never happens. */
  lemma CatchAllPreventsFallback(className: string, views: seq<RuleView>, t: Transaction, show: real -> string, k: nat)
    requires k < |views| && views[k].condition == AlwaysTrue
    ensures var r := Classification(className, views, t, show).value;
            && r.confidence == 1.0
            && exists j :: 0 <= j <= k && r == MatchResult(views[j], show)
  {
    assert RuleMatches(views[k].condition, t);
    var j := FirstMatch(views, t).value;
    assert j <= k;
  }

  /** A rule whose evaluation raises is passed over as if it did not match. */
  lemma FaultyRuleSkipped(className: string, views: seq<RuleView>, t: Transaction, show: real -> string)
    requires |views| > 1 && Evaluate(views[0].condition, t).Failure?
    ensures Classification(className, views, t, show) == Classification(className, views[1..], t, show)
  {
    assert forall j :: 1 <= j < |views| ==> views[j] == views[1..][j - 1];
  }

  /** With registered rules the priority of a match is the matching rule's position. */
  lemma PriorityIsPosition(className: string, ns: Namespace, t: Transaction, show: real -> string)
    requires |Declarations(className, ns)| > 0
    ensures var views := Registered(className, ns);
            var r := Classification(className, views, t, show).value;
            match FirstMatch(views, t)
            case Some(k) => r.priority == k && r.ruleName == r.category == views[k].category
            case None => r.priority == FallbackPriority
  {
  }

  /** `classify_batch(transactions)`: the list comprehension, which raises at the first
      transaction whose classification raises. */
  function ClassificationBatch(className: string, views: seq<RuleView>, ts: seq<Transaction>, show: real -> string)
    : (r: Result<seq<ClassificationResult>, Error>)
    ensures r.Success? ==> |r.value| == |ts|
  {
    if |ts| == 0 then
      Success([])
    else
      match Classification(className, views, ts[0], show)
      case Failure(e) => Failure(e)
      case Success(first) =>
        match ClassificationBatch(className, views, ts[1..], show)
        case Failure(e) => Failure(e)
        case Success(rest) => Success([first] + rest)
  }

  /** The batch keeps order and classifies each transaction on its own; it raises
      only when there are no rules and at least one transaction. */
  lemma {:induction false} BatchIsPointwise(className: string, views: seq<RuleView>, ts: seq<Transaction>, show: real -> string)
    ensures var r := ClassificationBatch(className, views, ts, show);
            r.Failure? <==> |views| == 0 && |ts| > 0
    ensures var r := ClassificationBatch(className, views, ts, show);
            r.Failure? ==> r.error == ValueError(className + NoRulesSuffix)
    ensures var r := ClassificationBatch(className, views, ts, show);
            r.Success? ==> forall i :: 0 <= i < |ts| ==>
              r.value[i] == Classification(className, views, ts[i], show).value
  {
    if |ts| > 0 {
      BatchIsPointwise(className, views, ts[1..], show);
      assert forall i :: 1 <= i < |ts| ==> ts[i] == ts[1..][i - 1];
    }
  }

  // ===== Classifier classes =====

  /**
   * A classifier class: its name and the rule list the metaclass stored in `_rules`.
   * Its operations are the class methods of `BaseClassifier`.
   */
  class Classifier {
    const name: string
    const rules: seq<Rule>

    /** Every rule has been given a category and a priority. */
    ghost predicate Valid()
      reads rules
    {
      forall k :: 0 <= k < |rules| ==> rules[k].Configured()
    }

    /** The rules' current categories and priorities. */
    ghost function Views(): (views: seq<RuleView>)
      requires Valid()
      reads rules
      ensures |views| == |rules|
    {
      seq(|rules|, k requires 0 <= k < |rules| && rules[k].Configured() reads rules =>
        RuleView(rules[k].condition, rules[k].category.value, rules[k].priority.value))
    }

    /** Creating the class runs the registration over its namespace. Without aliased
        rule objects the rules get exactly the pure `Registered` configuration. */
    constructor (className: string, ns: Namespace)
      modifies DeclaredRules(className, ns)
      ensures name == className
      ensures var decls := Declarations(className, ns);
              && |rules| == |decls|
              && (forall k :: 0 <= k < |rules| ==> rules[k] == decls[k].rule)
              && (forall k :: 0 <= k < |rules| ==> ConfiguredAsLast(className, decls, rules, k))
      ensures Valid()
      ensures Distinct(rules) ==> Views() == Registered(className, ns)
    {
      var registered := Register(className, ns);
      name := className;
      rules := registered;
      new;
      ghost var decls := Declarations(className, ns);
      forall k | 0 <= k < |rules| ensures rules[k].Configured() {
        assert ConfiguredAsLast(className, decls, rules, k);
      }
      if Distinct(rules) {
        forall k | 0 <= k < |rules|
          ensures Views()[k] == Registered(className, ns)[k]
        {
          LastIndexOfDistinct(rules, k);
          assert ConfiguredAsLast(className, decls, rules, k);
        }
      }
    }

    /** `classify(transaction)`: the scan in priority order with an early return. */
    method Classify(t: Transaction, show: real -> string) returns (r: Result<ClassificationResult, Error>)
      requires Valid()
      ensures r == Classification(name, Views(), t, show)
    {
      if |rules| == 0 {
        return Failure(ValueError(name + NoRulesSuffix));
      }
      ghost var views := Views();
      var i := 0;
      while i < |rules|
        invariant 0 <= i <= |rules|
        invariant forall j :: 0 <= j < i ==> !RuleMatches(views[j].condition, t)
      {
        var rule := rules[i];
        if RuleMatches(rule.condition, t) {
          var category, priority := rule.category.value, rule.priority.value;
          FirstMatchWins(name, views, t, show, i);
          return Success(ClassificationResult(category, priority, category, 1.0,
                                              [Describe(rule.condition, show)]));
        }
        i := i + 1;
      }
      return Success(ClassificationResult(Unclassified, FallbackPriority, FallbackRuleName, 0.0, []));
    }

    /** `classify_batch(transactions)`: one classification per transaction, in order. */
    method ClassifyBatch(ts: seq<Transaction>, show: real -> string)
      returns (r: Result<seq<ClassificationResult>, Error>)
      requires Valid()
      ensures r == ClassificationBatch(name, Views(), ts, show)
    {
      var results: seq<ClassificationResult> := [];
      var i := 0;
      while i < |ts|
        invariant 0 <= i <= |ts|
        invariant |results| == i
        invariant forall k :: 0 <= k < i ==>
                    var c := Classification(name, Views(), ts[k], show);
                    c.Success? && results[k] == c.value
      {
        var result := Classify(ts[i], show);
        if result.Failure? {
          return Failure(result.error);
        }
        results := results + [result.value];
        i := i + 1;
      }
      BatchIsPointwise(name, Views(), ts, show);
      if |ts| > 0 {
        assert Classification(name, Views(), ts[0], show).Success?;
        var batch := ClassificationBatch(name, Views(), ts, show);
        assert batch.Success?;
        assert forall k :: 0 <= k < |ts| ==> batch.value[k] == results[k];
        assert batch.value == results;
      }
      return Success(results);
    }

    /** `get_rules()`: a new list with the registered rules, in order. */
    method GetRules() returns (copy: array<Rule>)
      ensures fresh(copy)
      ensures copy[..] == rules
    {
      copy := new Rule[|rules|](k requires 0 <= k < |rules| => rules[k]);
    }
  }
}
