/** What rules mean (sample/rules.go): comparison of values, the value that a condition looks at, and when a rule
    matches a trace. */
module RuleMeaning {
  import opened Options
  import opened Fields
  import opened PayloadSpec
  import opened Ordering
  import Spans

  const ROOT_PREFIX := "root."
  const NUM_DESCENDANTS := "?.NUM_DESCENDANTS"

  const EXISTS := "exists"
  const NOT_EXISTS := "not-exists"
  const HAS_ROOT_SPAN := "has-root-span"
  const EQ := "="
  const NEQ := "!="
  const GT := ">"
  const GTE := ">="
  const LT := "<"
  const LTE := "<="

  /** less, equal and more are -1, 0 and 1; None when the types do not compare. Numbers of the two integer types of
      Go are both Int64 here, and floats are real numbers. */
  function Compare(a: Value, b: Value): Option<int> {
    match (a, b)
    case (Nil, Nil) => Some(0)
    case (Nil, _) => Some(-1)
    case (_, Nil) => Some(1)
    case (Int64(i), Int64(j)) => Some(if i < j then -1 else if i > j then 1 else 0)
    case (Int64(i), Float(y)) => Some(if i as real < y then -1 else if i as real > y then 1 else 0)
    case (Float(x), Int64(j)) => Some(if x < j as real then -1 else if x > j as real then 1 else 0)
    case (Float(x), Float(y)) => Some(if x < y then -1 else if x > y then 1 else 0)
    case (Bool(p), Bool(q)) => Some(if !p && q then -1 else if p && !q then 1 else 0)
    case (Str(s), Str(t)) => Some(if s == t then 0 else if Leq(s, t) then -1 else 1)
    case _ => None
  }

  function Number(v: Value): Option<real> {
    match v
    case Int64(i) => Some(i as real)
    case Float(r) => Some(r)
    case _ => None
  }

  /** Swapping the operands swaps less and more. */
  lemma CompareSwaps(a: Value, b: Value)
    ensures Compare(b, a) == match Compare(a, b) case None => None case Some(c) => Some(-c)
  {
    if a.Str? && b.Str? {
      LeqTotal(a.s, b.s);
      if Leq(a.s, b.s) && Leq(b.s, a.s) {
        LeqAntisymmetric(a.s, b.s);
      }
    }
  }

  lemma CompareChains(a: Value, b: Value, c: Value)
    requires Compare(a, b) == Some(-1) && Compare(b, c) == Some(-1)
    ensures Compare(a, c) == Some(-1)
  {
    if a.Str? {
      LeqTransitive(a.s, b.s, c.s);
      if a.s == c.s {
        LeqAntisymmetric(a.s, b.s);
      }
    }
  }

  /** matches is the predicate that a condition gets from its data type, if any; valueAsBool is its value read as
      a truth value. */
  datatype Condition = Condition(field: string, fields: seq<string>, operator: string, value: Value, valueAsBool: bool,
                                 matches: Option<(Value, bool) -> bool>)

  function ConditionMatchesValue(c: Condition, value: Value, exists_: bool): bool {
    if !exists_ then c.operator == NOT_EXISTS
    else if c.operator == EXISTS then true
    else match Compare(value, c.value)
      case None => false
      case Some(r) =>
        || (c.operator == NEQ && r != 0) || (c.operator == EQ && r == 0) || (c.operator == GT && r == 1)
        || (c.operator == GTE && r >= 0) || (c.operator == LT && r == -1) || (c.operator == LTE && r <= 0)
  }

  /** What a comparison says of a value that is there. */
  function Says(c: Condition, operator: string, value: Value): bool {
    ConditionMatchesValue(c.(operator := operator), value, true)
  }

  /** The texts agree up to some place, where the first one ends or has the smaller character. */
  ghost predicate ComesBefore(s: string, t: string) {
    exists i :: 0 <= i <= |s| && i < |t| && s[..i] == t[..i] && (i == |s| || s[i] < t[i])
  }

  lemma {:induction false} LeqIsBefore(s: string, t: string)
    ensures Leq(s, t) && s != t <==> ComesBefore(s, t)
  {
    forall i | 0 < i <= |s| && i < |t| && s[..i] == t[..i] ensures s[0] == t[0] {
      assert s[..i][0] == t[..i][0];
    }
    if s != [] && t != [] && s[0] == t[0] {
      LeqIsBefore(s[1..], t[1..]);
      assert s == [s[0]] + s[1..] && t == [t[0]] + t[1..];
      if i :| 0 <= i <= |s| && i < |t| && s[..i] == t[..i] && (i == |s| || s[i] < t[i]) {
        assert s[1..][..i - 1] == s[..i][1..] && t[1..][..i - 1] == t[..i][1..];
      }
      if i :| 0 <= i < |s| && i + 1 < |t| && s[1..][..i] == t[1..][..i] && (i + 1 == |s| || s[i + 1] < t[i + 1]) {
        assert s[..i + 1] == [s[0]] + s[1..][..i] && t[..i + 1] == [t[0]] + t[1..][..i];
      }
    } else if t != [] && (s == [] || s[0] < t[0]) {
      assert s[..0] == t[..0];
    }
  }

  /** Nil compares with everything, and the rest within numbers, truth values and texts. */
  predicate Comparable(a: Value, b: Value) {
    || a.Nil? || b.Nil? || (Number(a).Some? && Number(b).Some?) || (a.Bool? && b.Bool?) || (a.Str? && b.Str?)
  }

  /** Of values that compare, exactly one of LT, EQ and GT holds, the other operators follow from these, and swapping
      the sides swaps LT and GT; of values that do not, no operator holds. Numbers compare by value across their
      types, texts by their first difference, and false before true; nil comes before everything else. NEQ is the
      contrary of EQ exactly when the values compare. */
  lemma OperatorsAgree(c: Condition, value: Value)
    ensures Says(c, NEQ, value) == !Says(c, EQ, value) <==> Comparable(value, c.value)
    ensures Says(c, LT, value) || Says(c, EQ, value) || Says(c, GT, value) <==> Comparable(value, c.value)
    ensures !(Says(c, LT, value) && Says(c, EQ, value)) && !(Says(c, LT, value) && Says(c, GT, value))
    ensures !(Says(c, EQ, value) && Says(c, GT, value))
    ensures Says(c, LTE, value) == (Says(c, LT, value) || Says(c, EQ, value))
    ensures Says(c, GTE, value) == (Says(c, GT, value) || Says(c, EQ, value))
    ensures Says(c, GT, value) == Says(c.(value := value), LT, c.value)
    ensures Says(c, EQ, value) == Says(c.(value := value), EQ, c.value)
    ensures Number(value).Some? && Number(c.value).Some? ==>
              && Says(c, LT, value) == (Number(value).value < Number(c.value).value)
              && Says(c, EQ, value) == (Number(value).value == Number(c.value).value)
    ensures value.Str? && c.value.Str? ==>
              && (Says(c, LT, value) <==> ComesBefore(value.s, c.value.s))
              && (Says(c, EQ, value) <==> value.s == c.value.s)
    ensures value.Bool? && c.value.Bool? ==>
              Says(c, LT, value) == (!value.b && c.value.b) && Says(c, EQ, value) == (value.b == c.value.b)
    ensures value.Nil? ==> Says(c, LT, value) == !c.value.Nil? && Says(c, EQ, value) == c.value.Nil?
  {
    DifferentOperators();
    CompareSwaps(value, c.value);
    if value.Str? && c.value.Str? {
      LeqIsBefore(value.s, c.value.s);
    }
  }

  /** Existence is tested by no other operator; without a value none of the comparisons holds, and an unknown operator
      never does. */
  lemma ExistenceIs(c: Condition, value: Value, found: bool)
    ensures c.operator == "exists" ==> ConditionMatchesValue(c, value, found) == found
    ensures c.operator == "not-exists" ==> ConditionMatchesValue(c, value, found) == !found
    ensures c.operator != "not-exists" && !found ==> !ConditionMatchesValue(c, value, found)
    ensures c.operator !in {"exists", "not-exists", "=", "!=", "<", "<=", ">", ">="} ==>
              !ConditionMatchesValue(c, value, found)
  {
    DifferentOperators();
    assert |NOT_EXISTS| == 10 && |EXISTS| == 6;
    assert |EQ| == 1 && |GT| == 1 && |LT| == 1 && |NEQ| == 2 && |GTE| == 2 && |LTE| == 2;
  }

  lemma DifferentOperators()
    ensures EQ != NEQ && EQ != GT && EQ != GTE && EQ != LT && EQ != LTE && EQ != EXISTS
    ensures NEQ != GT && NEQ != GTE && NEQ != LT && NEQ != LTE && NEQ != EXISTS
    ensures GT != GTE && GT != LT && GT != LTE && GT != EXISTS && GTE != LT && GTE != LTE && GTE != EXISTS
    ensures LT != LTE && LT != EXISTS && LTE != EXISTS
  {
    assert |EQ| == 1 && |GT| == 1 && |LT| == 1 && |NEQ| == 2 && |GTE| == 2 && |LTE| == 2 && |EXISTS| == 6;
    assert EQ[0] == '=' && GT[0] == '>' && LT[0] == '<' && NEQ[0] == '!' && GTE[0] == '>' && LTE[0] == '<';
  }

  datatype Span = Span(data: Contents)

  datatype Trace = Trace(root: Option<Span>, spans: seq<Span>)

  /** Looks a path up in the JSON form of a span. */
  type Nested = (Span, string) -> Option<string>

  predicate IsRootField(field: string) {
    |field| >= 5 && field[..5] == ROOT_PREFIX
  }

  /** A field of the span, or of the root span. */
  function FieldOf(t: Trace, span: Span, field: string): Option<Value> {
    if !IsRootField(field) then span.data.Seen(field)
    else if t.root.Some? then t.root.value.data.Seen(field[5..])
    else None
  }

  /** The first of the fields that is there. */
  function First(t: Trace, span: Span, fields: seq<string>): Option<Value> {
    if fields == [] then None
    else if FieldOf(t, span, fields[0]).Some? then FieldOf(t, span, fields[0])
    else First(t, span, fields[1..])
  }

  function FirstNested(span: Span, fields: seq<string>, nested: Nested): Option<string> {
    if fields == [] then None
    else if nested(span, fields[0]).Some? then nested(span, fields[0])
    else FirstNested(span, fields[1..], nested)
  }

  /** Nested fields are looked for in the span that the last field was looked for in. */
  function LastSearched(t: Trace, span: Span, fields: seq<string>): Span {
    if fields != [] && IsRootField(fields[|fields| - 1]) && t.root.Some? then t.root.value else span
  }

  /** The value that a condition looks at in a span, and whether there is one. */
  function Extracted(t: Trace, span: Span, c: Condition, checkNested: bool, nested: Nested): (Value, bool) {
    if c.field == NUM_DESCENDANTS then (Int64(Spans.Wrap32(|t.spans|)), true)
    else match First(t, span, c.fields)
      case Some(v) => (v, true)
      case None =>
        if !checkNested then (Nil, false)
        else match FirstNested(LastSearched(t, span, c.fields), c.fields, nested)
          case Some(s) => (Str(s), true)
          case None => (Nil, false)
  }

  /** The span satisfies the condition. */
  predicate Satisfies(t: Trace, span: Span, c: Condition, checkNested: bool, nested: Nested) {
    var (value, found) := Extracted(t, span, c, checkNested, nested);
    if c.matches.Some? then c.matches.value(value, found) else ConditionMatchesValue(c, value, found)
  }

  /** A condition on the trace as a whole: about its root span, or satisfied by some span. */
  ghost predicate HoldsOnTrace(t: Trace, c: Condition, checkNested: bool, nested: Nested) {
    if c.operator == HAS_ROOT_SPAN then t.root.Some? == c.valueAsBool
    else exists i :: 0 <= i < |t.spans| && Satisfies(t, t.spans[i], c, checkNested, nested)
  }

  /** Trace scope: every condition holds on the trace, maybe by different spans. */
  ghost predicate MatchesTrace(t: Trace, conditions: Option<seq<Condition>>, checkNested: bool, nested: Nested) {
    conditions.None? || forall c :: c in conditions.value ==> HoldsOnTrace(t, c, checkNested, nested)
  }

  /** Span scope: one span satisfies every condition. */
  ghost predicate MatchesSpan(t: Trace, conditions: Option<seq<Condition>>, checkNested: bool, nested: Nested) {
    conditions.None? ||
    exists i :: 0 <= i < |t.spans| && SatisfiesAll(t, t.spans[i], conditions.value, checkNested, nested)
  }

  ghost predicate SatisfiesAll(t: Trace, span: Span, conditions: seq<Condition>, checkNested: bool, nested: Nested) {
    forall j :: 0 <= j < |conditions| ==> Satisfies(t, span, conditions[j], checkNested, nested)
  }

  /** A name with the prefix means the field of the root span, and another name the field of the span itself. */
  lemma FieldsAre(t: Trace, span: Span, field: string)
    ensures FieldOf(t, span, "root." + field) == if t.root.None? then None else t.root.value.data.Seen(field)
    ensures !("root." <= field) ==> FieldOf(t, span, field) == span.data.Seen(field)
  {
    assert ("root." + field)[5..] == field && ("root." + field)[..5] == "root.";
    assert |field| >= 5 && field[..5] == ROOT_PREFIX ==> "root." <= field;
  }

  /** The value that a condition looks at is that of the first of its fields that is there. */
  lemma {:induction false} FirstIs(t: Trace, span: Span, fields: seq<string>, i: nat)
    requires i <= |fields| && forall j :: 0 <= j < i ==> FieldOf(t, span, fields[j]).None?
    requires i < |fields| ==> FieldOf(t, span, fields[i]).Some?
    ensures First(t, span, fields) == if i < |fields| then FieldOf(t, span, fields[i]) else None
  {
    if i > 0 {
      FirstIs(t, span, fields[1..], i - 1);
    }
  }

  lemma {:induction false} FirstNestedIs(span: Span, fields: seq<string>, nested: Nested, i: nat)
    requires i <= |fields| && forall j :: 0 <= j < i ==> nested(span, fields[j]).None?
    requires i < |fields| ==> nested(span, fields[i]).Some?
    ensures FirstNested(span, fields, nested) == if i < |fields| then nested(span, fields[i]) else None
  {
    if i > 0 {
      FirstNestedIs(span, fields[1..], nested, i - 1);
    }
  }

  /** The value of a condition: the number of spans, in 32 bits; else the first field that is there; else, when nested
      fields are looked for, the first of the paths that leads anywhere, in the root span if the last name has its
      prefix and there is one, and in the span itself if not. */
  lemma ValueIs(t: Trace, span: Span, c: Condition, checkNested: bool, nested: Nested, i: nat, k: nat)
    requires i <= |c.fields| && forall j :: 0 <= j < i ==> FieldOf(t, span, c.fields[j]).None?
    requires i < |c.fields| ==> FieldOf(t, span, c.fields[i]).Some?
    requires var atRoot := c.fields != [] && "root." <= c.fields[|c.fields| - 1] && t.root.Some?;
      var there := if atRoot then t.root.value else span;
      && k <= |c.fields| && (forall j :: 0 <= j < k ==> nested(there, c.fields[j]).None?)
      && (k < |c.fields| ==> nested(there, c.fields[k]).Some?)
    ensures var atRoot := c.fields != [] && "root." <= c.fields[|c.fields| - 1] && t.root.Some?;
      var there := if atRoot then t.root.value else span;
      Extracted(t, span, c, checkNested, nested)
      == if c.field == "?.NUM_DESCENDANTS" then (Int64(|t.spans| % 0x1_0000_0000), true)
         else if i < |c.fields| then (FieldOf(t, span, c.fields[i]).value, true)
         else if checkNested && k < |c.fields| then (Str(nested(there, c.fields[k]).value), true)
         else (Nil, false)
  {
    FirstIs(t, span, c.fields, i);
    var atRoot := c.fields != [] && "root." <= c.fields[|c.fields| - 1] && t.root.Some?;
    var there := if atRoot then t.root.value else span;
    FirstNestedIs(there, c.fields, nested, k);
    if c.fields != [] {
      PrefixIs(c.fields[|c.fields| - 1]);
    }
    assert LastSearched(t, span, c.fields) == there;
    hide First, FirstNested, LastSearched;
  }

  lemma PrefixIs(field: string)
    ensures "root." <= field <==> |field| >= 5 && field[..5] == "root."
  {
  }

  /** What a rule means, by its scope: in span scope one span has to satisfy every condition; in trace scope, the
      default, each condition is satisfied by some span, or is about there being a root span. A rule without
      conditions matches, and so does one of an unknown scope. */
  lemma ScopesMean(t: Trace, rule: Rule, checkNested: bool, nested: Nested)
    ensures rule.conditions.None? || rule.scope !in {"span", "trace", ""} ==> Matches(t, rule, checkNested, nested)
    ensures rule.conditions.Some? && rule.scope == "span" ==>
              var cs := rule.conditions.value;
              (Matches(t, rule, checkNested, nested) <==>
                exists i :: 0 <= i < |t.spans|
                            && forall j :: 0 <= j < |cs| ==> Satisfies(t, t.spans[i], cs[j], checkNested, nested))
    ensures rule.conditions.Some? && rule.scope in {"trace", ""} ==>
              var cs := rule.conditions.value;
              (Matches(t, rule, checkNested, nested) <==>
                forall j :: 0 <= j < |cs| ==>
                  if cs[j].operator == "has-root-span" then t.root.Some? == cs[j].valueAsBool
                  else exists i :: 0 <= i < |t.spans| && Satisfies(t, t.spans[i], cs[j], checkNested, nested))
  {
    hide Satisfies;
    if rule.conditions.Some? {
      var cs := rule.conditions.value;
      assert forall j :: 0 <= j < |cs| ==> cs[j] in cs;
      if rule.scope == "span" {
        assert forall i :: 0 <= i < |t.spans| ==>
          (SatisfiesAll(t, t.spans[i], cs, checkNested, nested) <==>
            forall j :: 0 <= j < |cs| ==> Satisfies(t, t.spans[i], cs[j], checkNested, nested));
      } else if rule.scope in {"trace", ""} {
        hide HoldsOnTrace;
        forall j | 0 <= j < |cs| {
          HoldsIs(t, cs[j], checkNested, nested);
        }
      }
    }
  }

  lemma HoldsIs(t: Trace, c: Condition, checkNested: bool, nested: Nested)
    ensures HoldsOnTrace(t, c, checkNested, nested)
            <==> if c.operator == "has-root-span" then t.root.Some? == c.valueAsBool
                 else exists i :: 0 <= i < |t.spans| && Satisfies(t, t.spans[i], c, checkNested, nested)
  {
    hide Satisfies;
  }

  lemma DifferentFromRoot()
    ensures HAS_ROOT_SPAN !in {EQ, NEQ, GT, GTE, LT, LTE, EXISTS, NOT_EXISTS}
  {
    assert |HAS_ROOT_SPAN| == 13 && |NOT_EXISTS| == 10 && |EXISTS| == 6;
    assert |EQ| == 1 && |GT| == 1 && |LT| == 1 && |NEQ| == 2 && |GTE| == 2 && |LTE| == 2;
  }

  /** One span for all conditions is more than a span for each. A condition on the root span has no predicate of its
      own and is satisfied by no span. */
  lemma SpanScopeIsStricter(t: Trace, conditions: Option<seq<Condition>>, checkNested: bool, nested: Nested)
    requires MatchesSpan(t, conditions, checkNested, nested)
    requires conditions.Some? ==> forall c :: c in conditions.value && c.operator == HAS_ROOT_SPAN ==> c.matches.None?
    ensures MatchesTrace(t, conditions, checkNested, nested)
  {
    DifferentFromRoot();
    if conditions.Some? {
      var i :| 0 <= i < |t.spans| && SatisfiesAll(t, t.spans[i], conditions.value, checkNested, nested);
      forall c | c in conditions.value ensures HoldsOnTrace(t, c, checkNested, nested) {
        var j :| 0 <= j < |conditions.value| && conditions.value[j] == c;
        assert Satisfies(t, t.spans[i], c, checkNested, nested);
      }
    }
  }

  /** What was found in a field of the root, after nothing but fields of the root, is found for every span. */
  lemma {:induction false} RootFieldsAgree(t: Trace, span: Span, other: Span, fields: seq<string>, i: nat)
    requires i < |fields| && (forall j :: 0 <= j <= i ==> IsRootField(fields[j]))
    requires First(t, span, fields[..i]).None? && FieldOf(t, span, fields[i]).Some?
    ensures First(t, other, fields) == FieldOf(t, span, fields[i])
  {
    if i > 0 {
      assert fields[..i][0] == fields[0] && fields[..i][1..] == fields[1..][..i - 1];
      RootFieldsAgree(t, span, other, fields[1..], i - 1);
    }
  }

  datatype Rule = Rule(name: string, sampleRate: int, drop: bool, scope: string, conditions: Option<seq<Condition>>,
                       sampler: Option<string>)

  ghost predicate Matches(t: Trace, rule: Rule, checkNested: bool, nested: Nested) {
    if rule.scope == "span" then MatchesSpan(t, rule.conditions, checkNested, nested)
    else if rule.scope == "trace" || rule.scope == "" then MatchesTrace(t, rule.conditions, checkNested, nested)
    else true
  }

  function ScopeReason(scope: string): string {
    if scope == "span" then "rules/span/"
    else if scope == "trace" || scope == "" then "rules/trace/"
    else "rules/invalid scope/"
  }

  datatype Decision = Decision(rate: nat, keep: bool, reason: string, key: string)

  /** A decision names the rule and its scope. */
  lemma ReasonsName(rule: Rule, samplers: map<string, Decision>, roll: nat -> nat)
    ensures var reason := DecisionOf(rule, samplers, roll).reason;
      var front := if rule.scope == "span" then "rules/span/"
                   else if rule.scope in {"trace", ""} then "rules/trace/" else "rules/invalid scope/";
      match rule.sampler
      case None => reason == front + rule.name
      case Some(name) =>
        if name in samplers then reason == front + rule.name + ":" + samplers[name].reason
        else reason == front + "bad_rule:" + rule.name
  {
  }

  /** What a rule that matches decides. samplers are the answers of the downstream samplers, and roll is the random
      choice among the first n numbers. */
  function DecisionOf(rule: Rule, samplers: map<string, Decision>, roll: nat -> nat): (d: Decision)
    ensures rule.sampler.None? && (rule.drop || rule.sampleRate < 1) ==> !d.keep
    ensures rule.sampler.None? && rule.sampleRate == 1 && roll(1) < 1 ==> d.keep == !rule.drop
  {
    var reason := ScopeReason(rule.scope);
    match rule.sampler
    case Some(name) =>
      if name !in samplers then Decision(1, true, reason + "bad_rule:" + rule.name, "")
      else samplers[name].(reason := reason + rule.name + ":" + samplers[name].reason)
    case None =>
      var keep := !rule.drop && rule.sampleRate > 0 && roll(rule.sampleRate) == 0;
      Decision(rule.sampleRate % Spans.WIDTH64, keep, reason + rule.name, "")
  }
}

/** sample/rules.go, with its early exits. */
module Rules {
  import opened Options
  import opened Fields
  import opened RuleMeaning
  import Spans

  /** The value that a condition looks at. checkedOnlyRoot promises the same value for every span. */
  method ExtractValueFromSpan(t: Trace, span0: Span, c: Condition, checkNested: bool, nested: Nested)
      returns (value: Value, found: bool, checkedOnlyRoot: bool)
    ensures (value, found) == Extracted(t, span0, c, checkNested, nested)
    ensures checkedOnlyRoot ==> forall other: Span :: Extracted(t, other, c, checkNested, nested) == (value, found)
  {
    checkedOnlyRoot := true;
    if c.field == NUM_DESCENDANTS {
      return Int64(Spans.Wrap32(|t.spans|)), true, true;
    }
    var span := span0;
    for i := 0 to |c.fields|
      invariant First(t, span0, c.fields[..i]).None? && First(t, span0, c.fields) == First(t, span0, c.fields[i..])
      invariant checkedOnlyRoot ==> forall j :: 0 <= j < i ==> IsRootField(c.fields[j])
      invariant span == LastSearched(t, span0, c.fields[..i])
    {
      SkipOne(t, span0, c.fields, i);
      var field := c.fields[i];
      span := span0;
      if IsRootField(field) {
        if t.root.None? {
          continue;
        }
        field := field[5..];
        span := t.root.value;
      } else {
        checkedOnlyRoot := false;
      }
      if span.data.Seen(field).Some? {
        if checkedOnlyRoot {
          forall other: Span ensures First(t, other, c.fields) == span.data.Seen(field) {
            RootFieldsAgree(t, span0, other, c.fields, i);
          }
        }
        return span.data.Seen(field).value, true, checkedOnlyRoot;
      }
    }
    assert c.fields[..|c.fields|] == c.fields;
    if checkNested {
      for i := 0 to |c.fields|
        invariant FirstNested(span, c.fields, nested) == FirstNested(span, c.fields[i..], nested)
      {
        assert c.fields[i..][1..] == c.fields[i + 1..];
        var result := nested(span, c.fields[i]);
        if result.Some? {
          return Str(result.value), true, false;
        }
      }
    }
    return Nil, false, false;
  }

  lemma SkipOne(t: Trace, span: Span, fields: seq<string>, i: nat)
    requires i < |fields| && First(t, span, fields[..i]).None?
    ensures FieldOf(t, span, fields[i]).Some? ==> First(t, span, fields[i..]) == FieldOf(t, span, fields[i])
    ensures FieldOf(t, span, fields[i]).None? ==>
              First(t, span, fields[i..]) == First(t, span, fields[i + 1..]) && First(t, span, fields[..i + 1]).None?
  {
    assert fields[i..][1..] == fields[i + 1..];
    if FieldOf(t, span, fields[i]).None? {
      FirstSnoc(t, span, fields, i);
    }
  }

  lemma {:induction false} FirstSnoc(t: Trace, span: Span, fields: seq<string>, i: nat)
    requires i < |fields| && First(t, span, fields[..i]).None? && FieldOf(t, span, fields[i]).None?
    ensures First(t, span, fields[..i + 1]).None?
  {
    if i > 0 {
      assert fields[..i][1..] == fields[1..][..i - 1] && fields[..i + 1][1..] == fields[1..][..i];
      FirstSnoc(t, span, fields[1..], i - 1);
    }
  }

  /** Whether the span satisfies the condition, and whether every span would answer the same. */
  method Check(t: Trace, span: Span, c: Condition, checkNested: bool, nested: Nested)
      returns (matched: bool, checkedOnlyRoot: bool)
    ensures matched == Satisfies(t, span, c, checkNested, nested)
    ensures checkedOnlyRoot ==> forall other: Span :: Satisfies(t, other, c, checkNested, nested) == matched
  {
    hide Extracted;
    var value, found;
    value, found, checkedOnlyRoot := ExtractValueFromSpan(t, span, c, checkNested, nested);
    if c.matches.None? {
      matched := ConditionMatchesValue(c, value, found);
    } else {
      matched := c.matches.value(value, found);
    }
  }

  method RuleMatchesTrace(t: Trace, conditions: Option<seq<Condition>>, checkNested: bool, nested: Nested)
      returns (matches: bool)
    ensures matches == MatchesTrace(t, conditions, checkNested, nested)
  {
    hide Satisfies;
    if conditions.None? {
      return true;
    }
    var cs := conditions.value;
    var matched := 0;
    for i := 0 to |cs|
      invariant matched <= i
      invariant matched == i <==> forall j :: 0 <= j < i ==> HoldsOnTrace(t, cs[j], checkNested, nested)
    {
      if cs[i].operator == HAS_ROOT_SPAN {
        if t.root.Some? == cs[i].valueAsBool {
          matched := matched + 1;
          continue;
        }
        assert !HoldsOnTrace(t, cs[i], checkNested, nested) && cs[i] in cs;
        return false;
      }
      var holds := AnySpan(t, cs[i], checkNested, nested);
      if holds {
        matched := matched + 1;
      }
    }
    return matched == |cs|;
  }

  method AnySpan(t: Trace, c: Condition, checkNested: bool, nested: Nested) returns (holds: bool)
    requires c.operator != HAS_ROOT_SPAN
    ensures holds == HoldsOnTrace(t, c, checkNested, nested)
  {
    hide Satisfies;
    for k := 0 to |t.spans|
      invariant forall l :: 0 <= l < k ==> !Satisfies(t, t.spans[l], c, checkNested, nested)
    {
      var matched, checkedOnlyRoot := Check(t, t.spans[k], c, checkNested, nested);
      if matched {
        return true;
      }
      if checkedOnlyRoot {
        return false;
      }
    }
    return false;
  }

  method RuleMatchesSpanInTrace(t: Trace, conditions: Option<seq<Condition>>, checkNested: bool, nested: Nested)
      returns (matches: bool)
    ensures matches == MatchesSpan(t, conditions, checkNested, nested)
  {
    hide Satisfies;
    if conditions.None? {
      return true;
    }
    var cs := conditions.value;
    for k := 0 to |t.spans|
      invariant forall l :: 0 <= l < k ==> !SatisfiesAll(t, t.spans[l], cs, checkNested, nested)
    {
      var ruleMatched := true;
      for j := 0 to |cs|
        invariant ruleMatched && forall l :: 0 <= l < j ==> Satisfies(t, t.spans[k], cs[l], checkNested, nested)
      {
        var matched, checkedOnlyRoot := Check(t, t.spans[k], cs[j], checkNested, nested);
        if !matched {
          ruleMatched := false;
          if checkedOnlyRoot {
            forall l | 0 <= l < |t.spans| ensures !SatisfiesAll(t, t.spans[l], cs, checkNested, nested) {
              assert !Satisfies(t, t.spans[l], cs[j], checkNested, nested);
            }
            return false;
          }
          break;
        }
      }
      if ruleMatched {
        assert SatisfiesAll(t, t.spans[k], cs, checkNested, nested);
        return true;
      }
    }
    return false;
  }

  method Decide(rule: Rule, reason: string, samplers: map<string, Decision>, roll: nat -> nat) returns (d: Decision)
    requires reason == ScopeReason(rule.scope)
    ensures d == DecisionOf(rule, samplers, roll)
  {
    hide ScopeReason;
    if rule.sampler.Some? {
      if rule.sampler.value !in samplers {
        return Decision(1, true, reason + "bad_rule:" + rule.name, "");
      }
      d := samplers[rule.sampler.value];
      return d.(reason := reason + rule.name + ":" + d.reason);
    }
    var keep := !rule.drop && rule.sampleRate > 0 && roll(rule.sampleRate) == 0;
    d := Decision(rule.sampleRate % Spans.WIDTH64, keep, reason + rule.name, "");
  }

  /** The decision of the first rule that matches; a trace that no rule matches is kept. */
  method GetSampleRate(t: Trace, rules: seq<Rule>, checkNested: bool, nested: Nested, samplers: map<string, Decision>,
                       roll: nat -> nat)
      returns (d: Decision)
    ensures (forall i :: 0 <= i < |rules| ==> !Matches(t, rules[i], checkNested, nested)) ==>
              d == Decision(1, true, "no rule matched", "")
    ensures forall i :: 0 <= i < |rules| && Matches(t, rules[i], checkNested, nested)
                        && (forall j :: 0 <= j < i ==> !Matches(t, rules[j], checkNested, nested)) ==>
              && d == DecisionOf(rules[i], samplers, roll)
              && match rules[i].sampler
                 case Some(name) =>
                   if name in samplers then (d.rate, d.keep, d.key) == (samplers[name].rate, samplers[name].keep,
                                                                        samplers[name].key)
                   else d.rate == 1 && d.keep
                 case None =>
                   && d.rate == rules[i].sampleRate % 0x1_0000_0000_0000_0000
                   && (d.keep <==> !rules[i].drop && rules[i].sampleRate > 0 && roll(rules[i].sampleRate) == 0)
  {
    hide MatchesTrace, MatchesSpan;
    for i := 0 to |rules|
      invariant forall j :: 0 <= j < i ==> !Matches(t, rules[j], checkNested, nested)
    {
      var rule := rules[i];
      var matched, reason;
      if rule.scope == "span" {
        matched := RuleMatchesSpanInTrace(t, rule.conditions, checkNested, nested);
        reason := "rules/span/";
      } else if rule.scope == "trace" || rule.scope == "" {
        matched := RuleMatchesTrace(t, rule.conditions, checkNested, nested);
        reason := "rules/trace/";
      } else {
        matched := true;
        reason := "rules/invalid scope/";
      }
      if matched {
        d := Decide(rule, reason, samplers, roll);
        return;
      }
    }
    return Decision(1, true, "no rule matched", "");
  }
}
