/**
 * The policy-rule model of skyline's policy manager (`Rule` and its subclass `APIRule`).
 * No method of either class assigns a field after the constructor, so both classes are
 * one datatype with a variant each (the lists an API rule stores are held as values);
 * the subclass's constructor adds the scope types and the operations. Construction
 * returns a `Result`: the parser's rejection of a check string, and the schemas'
 * rejection of the scope types or the operations, are the errors it raises.
 */
module PolicyRules {
  import opened Wrappers
  import opened PyText
  import opened OsloPolicy
  import opened PolicySchemas
  import opened Seqs

  /**
   * The placeholder for a missing description, "No description". It is written as a
   * concatenation so that the verifier does not unfold recursive definitions over it
   * character by character.
   */
  const NoDescription: string := "No" + " description"

  datatype Error =
    | RuleParseError(text: string)
    | ScopeTypesInvalid(scopeTypes: seq<string>)
    | OperationsInvalid(operations: seq<Operation>)

  datatype Rule =
    | Rule(name: string, checkStr: string, check: Check,
           description: string, basicCheckStr: string, basicCheck: Check)
    | ApiRule(name: string, checkStr: string, check: Check,
              description: string, basicCheckStr: string, basicCheck: Check,
              scopeTypes: seq<string>, operations: seq<Operation>)

  /** Any Python object a rule may be compared with: a rule (of either class) or something else. */
  datatype PyObject = RuleObject(rule: Rule) | OtherObject

  /**
   * What every constructed rule satisfies: a non-empty description, and both check
   * strings stored together with what the parser made of them.
   */
  ghost predicate WellFormed(parse: Parser, r: Rule) {
    && r.description != ""
    && parse(r.checkStr) == Some(r.check)
    && parse(r.basicCheckStr) == Some(r.basicCheck)
    && (r.basicCheckStr == "" ==> r.checkStr == "")
  }

  /** `description or "No description"`. */
  function DefaultDescription(description: string): (d: string)
    ensures d != ""
    ensures description != "" ==> d == description
    ensures description == "" ==> d == NoDescription
  {
    if description == "" then NoDescription else description
  }

  /** The default keeps a description's line structure; the placeholder is a single line. */
  lemma DefaultDescriptionLines(description: string)
    requires HashAfterNewline(description)
    ensures HashAfterNewline(DefaultDescription(description))
    ensures CountChar(DefaultDescription(description), '\n') == CountChar(description, '\n')
  {
    if description == "" {
      SingleLineFacts(NoDescription);
    }
  }

  /** `Rule.__init__`. */
  function NewRule(parse: Parser, name: string, checkStr: string, description: string,
                   basicCheckStr: string): (r: Result<Rule, Error>)
    ensures r.Success? <==>
      parse(checkStr).Some? && parse(if basicCheckStr == "" then checkStr else basicCheckStr).Some?
    ensures parse(checkStr).None? ==> r == Failure(RuleParseError(checkStr))
    ensures r.Failure? && parse(checkStr).Some? ==> r == Failure(RuleParseError(basicCheckStr))
    ensures r.Success? ==> r.value.Rule? && WellFormed(parse, r.value)
    ensures r.Success? ==> r.value.name == name && r.value.checkStr == checkStr
    ensures r.Success? ==> r.value.description == DefaultDescription(description)
    ensures r.Success? ==> r.value.basicCheckStr == (if basicCheckStr == "" then checkStr else basicCheckStr)
  {
    match parse(checkStr)
    case None => Failure(RuleParseError(checkStr))
    case Some(check) =>
      var desc := DefaultDescription(description);
      var basic := if basicCheckStr == "" then checkStr else basicCheckStr;
      match parse(basic)
      case None => Failure(RuleParseError(basic))
      case Some(basicCheck) => Success(Rule(name, checkStr, check, desc, basic, basicCheck))
  }

  /** The `Rule` part of a rule of either class. */
  function BaseRule(r: Rule): Rule {
    Rule(r.name, r.checkStr, r.check, r.description, r.basicCheckStr, r.basicCheck)
  }

  /** `APIRule.__init__`: the base constructor first, then the scope-types schema, then the operations schema. */
  function NewApiRule(parse: Parser, schemas: Schemas, name: string, checkStr: string,
                      description: string, scopeTypes: seq<string>, operations: seq<Operation>,
                      basicCheckStr: string): (r: Result<Rule, Error>)
    ensures r.Success? <==>
      && NewRule(parse, name, checkStr, description, basicCheckStr).Success?
      && schemas.scopeTypesValid(scopeTypes)
      && schemas.operationsValid(operations)
    ensures NewRule(parse, name, checkStr, description, basicCheckStr).Failure? ==>
      r == NewRule(parse, name, checkStr, description, basicCheckStr)
    ensures NewRule(parse, name, checkStr, description, basicCheckStr).Success? && !schemas.scopeTypesValid(scopeTypes) ==>
      r == Failure(ScopeTypesInvalid(scopeTypes))
    ensures NewRule(parse, name, checkStr, description, basicCheckStr).Success? && schemas.scopeTypesValid(scopeTypes) &&
            !schemas.operationsValid(operations) ==>
      r == Failure(OperationsInvalid(operations))
    ensures r.Success? ==>
      && r.value.ApiRule?
      && WellFormed(parse, r.value)
      && BaseRule(r.value) == NewRule(parse, name, checkStr, description, basicCheckStr).value
      && r.value.scopeTypes == scopeTypes
      && r.value.operations == operations
  {
    match NewRule(parse, name, checkStr, description, basicCheckStr)
    case Failure(e) => Failure(e)
    case Success(base) =>
      if !schemas.scopeTypesValid(scopeTypes) then Failure(ScopeTypesInvalid(scopeTypes))
      else if !schemas.operationsValid(operations) then Failure(OperationsInvalid(operations))
      else Success(ApiRule(base.name, base.checkStr, base.check, base.description,
                           base.basicCheckStr, base.basicCheck, scopeTypes, operations))
  }

  /** `Rule.__str__`: the rule as a YAML mapping entry. */
  function Str(r: Rule): string {
    "\"" + r.name + "\": \"" + r.checkStr + "\""
  }

  /** `Rule.__eq__`: only the name and the check string take part; anything that is not a rule is unequal. */
  predicate Eq(self: Rule, other: PyObject)
    ensures Eq(self, other) ==> other.RuleObject? && Str(self) == Str(other.rule)
  {
    other.RuleObject? && (self.name, self.checkStr) == (other.rule.name, other.rule.checkStr)
  }

  /** Without a basic check string, the basic check is the check itself. */
  lemma BasicCheckDefault(parse: Parser, name: string, checkStr: string, description: string)
    requires NewRule(parse, name, checkStr, description, "").Success?
    ensures var r := NewRule(parse, name, checkStr, description, "").value;
      r.basicCheckStr == r.checkStr && r.basicCheck == r.check
  {
  }

  /** The placeholder is the text `"No description"`. */
  lemma NoDescriptionText()
    ensures NoDescription == "No description"
  {
  }

  /** Without a description, the rule is documented as "No description". */
  lemma EmptyDescriptionDefault(parse: Parser, name: string, checkStr: string, basicCheckStr: string)
    requires NewRule(parse, name, checkStr, "", basicCheckStr).Success?
    ensures NewRule(parse, name, checkStr, "", basicCheckStr).value.description == NoDescription
  {
  }

  /** Rules built from the same name and check string are equal, whatever their descriptions and basic checks. */
  lemma EqIgnoresDescriptionAndBasic(parse: Parser, name: string, checkStr: string,
                                     description1: string, basic1: string,
                                     description2: string, basic2: string)
    requires NewRule(parse, name, checkStr, description1, basic1).Success?
    requires NewRule(parse, name, checkStr, description2, basic2).Success?
    ensures Eq(NewRule(parse, name, checkStr, description1, basic1).value,
               RuleObject(NewRule(parse, name, checkStr, description2, basic2).value))
  {
  }

  /** Rule equality is an equivalence on rules, and nothing that is not a rule equals a rule. */
  lemma EqLaws(a: Rule, b: Rule, c: Rule)
    ensures Eq(a, RuleObject(a))
    ensures Eq(a, RuleObject(b)) <==> Eq(b, RuleObject(a))
    ensures Eq(a, RuleObject(b)) && Eq(b, RuleObject(c)) ==> Eq(a, RuleObject(c))
    ensures !Eq(a, OtherObject)
  {
  }

  /** An API rule equals, both ways round, the plain rule built from the same arguments. */
  lemma ApiRuleEqualsItsBase(parse: Parser, schemas: Schemas, name: string, checkStr: string,
                             description: string, scopeTypes: seq<string>, operations: seq<Operation>,
                             basicCheckStr: string)
    requires NewApiRule(parse, schemas, name, checkStr, description, scopeTypes, operations, basicCheckStr).Success?
    ensures NewRule(parse, name, checkStr, description, basicCheckStr).Success?
    ensures var api := NewApiRule(parse, schemas, name, checkStr, description, scopeTypes, operations, basicCheckStr).value;
      var base := NewRule(parse, name, checkStr, description, basicCheckStr).value;
      api != base && Eq(api, RuleObject(base)) && Eq(base, RuleObject(api))
  {
  }

  /** `f'# {method:8}{path}'`: one operation's comment line, without its newline. */
  function OperationComment(op: Operation): (line: string)
    ensures IsComment(line)
    ensures |line| == 2 + (if |op.verb| < 8 then 8 else |op.verb|) + |op.path|
  {
    "# " + PadRight(op.verb, 8) + op.path
  }

  function OperationComments(ops: seq<Operation>): (r: seq<string>)
    ensures |r| == |ops|
  {
    seq(|ops|, i requires 0 <= i < |ops| => OperationComment(ops[i]))
  }

  function ScopeComment(scopeTypes: seq<string>): (line: string)
    ensures IsComment(line)
  {
    "# Intended scope(s): " + PyListRepr(scopeTypes)
  }

  /** `format_into_yaml`, as `Rule` and as `APIRule` override it. */
  function FormatIntoYaml(r: Rule): string {
    var desc := "# " + r.description + "\n";
    var entry := Str(r) + "\n\n";
    match r
    case Rule(_, _, _, _, _, _) =>
      desc + entry
    case ApiRule(_, _, _, _, _, _, scopeTypes, operations) =>
      var op := Join(Terminated(OperationComments(operations)));
      var scope := ScopeComment(scopeTypes) + "\n";
      desc + (op + (scope + entry))
  }

  /** The description `from_oslo` hands to the constructor: missing becomes empty, and each newline gains a `#`. */
  function OsloDescription(description: Option<string>): (d: string)
    ensures HashAfterNewline(d)
    ensures UnescapeNewlines(d) == description.GetOr("")
    ensures d == "" <==> description.GetOr("") == ""
    ensures CountChar(d, '\n') == CountChar(description.GetOr(""), '\n')
  {
    EscapeRoundTrip(description.GetOr(""));
    EscapeHashAfterNewline(description.GetOr(""));
    EscapeCount(description.GetOr(""));
    EscapeNewlines(description.GetOr(""))
  }

  /** `Rule.from_oslo`. */
  function RuleFromOslo(parse: Parser, rule: RuleDefault): (r: Result<Rule, Error>)
    ensures r.Success? <==> parse(rule.checkStr).Some?
    ensures r.Failure? ==> r.error == RuleParseError(rule.checkStr)
    ensures r.Success? ==>
      && r.value.Rule?
      && WellFormed(parse, r.value)
      && r.value.name == rule.name
      && r.value.checkStr == rule.checkStr
      && r.value.basicCheckStr == rule.checkStr
      && HashAfterNewline(r.value.description)
      && CountChar(r.value.description, '\n') == CountChar(rule.description.GetOr(""), '\n')
    ensures r.Success? && rule.description.GetOr("") == "" ==> r.value.description == NoDescription
    ensures r.Success? && rule.description.GetOr("") != "" ==>
      UnescapeNewlines(r.value.description) == rule.description.value
  {
    DefaultDescriptionLines(OsloDescription(rule.description));
    NewRule(parse, rule.name, rule.checkStr, OsloDescription(rule.description), "")
  }

  /** The scope types `APIRule.from_oslo` passes on: a copy of a list, or `["project"]`. */
  function OsloScopeTypes(field: ScopeTypesField): (r: seq<string>)
    ensures field.ScopeTypesList? ==> |r| == |field.items| && forall i :: 0 <= i < |r| ==> r[i] == field.items[i]
    ensures !field.ScopeTypesList? ==> r == ["project"]
  {
    match field
    case ScopeTypesList(items) => seq(|items|, i requires 0 <= i < |items| => items[i])
    case ScopeTypesOther => ["project"]
  }

  /** How many operations one dictionary expands to: one per listed verb, otherwise one. */
  function Width(op: OperationDict): nat {
    if op.methodEntry.MethodList? then |op.methodEntry.verbs| else 1
  }

  function TotalWidth(ops: seq<OperationDict>): nat {
    if ops == [] then 0 else Width(ops[0]) + TotalWidth(ops[1..])
  }

  /** The operations one dictionary becomes, in `APIRule.from_oslo`. */
  function ExpandOperation(op: OperationDict): (r: seq<Operation>)
    ensures |r| == Width(op)
    ensures forall k :: 0 <= k < |r| ==> r[k].path == op.path.GetOr("")
    ensures op.methodEntry.MethodList? ==> forall k :: 0 <= k < |r| ==> r[k].verb == Upper(op.methodEntry.verbs[k])
    ensures op.methodEntry.MethodString? ==> r[0].verb == Upper(op.methodEntry.verb)
    ensures op.methodEntry.MethodOther? ==> r[0].verb == "GET"
  {
    var path := op.path.GetOr("");
    match op.methodEntry
    case MethodList(verbs) =>
      seq(|verbs|, k requires 0 <= k < |verbs| => Operation(Upper(verbs[k]), path))
    case MethodString(verb) => [Operation(Upper(verb), path)]
    case MethodOther => [Operation("GET", path)]
  }

  /** The operations a list of dictionaries becomes, in order. */
  function ExpandOperations(ops: seq<OperationDict>): (r: seq<Operation>)
    ensures |r| == TotalWidth(ops)
  {
    if ops == [] then [] else ExpandOperation(ops[0]) + ExpandOperations(ops[1..])
  }

  /** Expansion distributes over concatenation of the input list. */
  lemma {:induction false} ExpandOperationsConcat(a: seq<OperationDict>, b: seq<OperationDict>)
    ensures ExpandOperations(a + b) == ExpandOperations(a) + ExpandOperations(b)
    ensures TotalWidth(a + b) == TotalWidth(a) + TotalWidth(b)
  {
    if a != [] {
      assert (a + b)[0] == a[0];
      assert (a + b)[1..] == a[1..] + b;
      ExpandOperationsConcat(a[1..], b);
    } else {
      assert a + b == b;
    }
  }

  /** Expanding one more dictionary appends its operations. */
  lemma ExpandOperationsSnoc(ops: seq<OperationDict>, i: nat)
    requires i < |ops|
    ensures ExpandOperations(ops[..i + 1]) == ExpandOperations(ops[..i]) + ExpandOperation(ops[i])
  {
    assert ops[..i + 1] == ops[..i] + [ops[i]];
    ExpandOperationsConcat(ops[..i], [ops[i]]);
    assert [ops[i]][1..] == [];
  }

  /** One more verb of a list-valued method appends one operation. */
  lemma ExpandVerbStep(op: OperationDict, j: nat)
    requires op.methodEntry.MethodList? && j < |op.methodEntry.verbs|
    ensures ExpandOperation(op)[..j + 1] ==
      ExpandOperation(op)[..j] + [Operation(Upper(op.methodEntry.verbs[j]), op.path.GetOr(""))]
  {
    var r := ExpandOperation(op);
    assert r[..j + 1] == r[..j] + [r[j]];
  }

  /**
   * Order is kept: the operations of the `i`-th dictionary form one contiguous block of
   * the result, after those of every earlier dictionary.
   */
  lemma ExpandOperationsBlock(ops: seq<OperationDict>, i: nat)
    requires i < |ops|
    ensures var start := TotalWidth(ops[..i]);
      start + Width(ops[i]) <= |ExpandOperations(ops)| &&
      ExpandOperations(ops)[start .. start + Width(ops[i])] == ExpandOperation(ops[i])
  {
    var before, block, after := ExpandOperations(ops[..i]), ExpandOperation(ops[i]), ExpandOperations(ops[i + 1..]);
    ExpandOperationsSnoc(ops, i);
    assert ops == ops[..i + 1] + ops[i + 1..];
    ExpandOperationsConcat(ops[..i + 1], ops[i + 1..]);
    assert ExpandOperations(ops) == before + block + after;
    SliceMiddle(before, block, after);
  }

  /** One turn of the loop of `APIRule.from_oslo`: the operations one dictionary appends. */
  method AppendOperations(operations: seq<Operation>, operation: OperationDict) returns (result: seq<Operation>)
    ensures result == operations + ExpandOperation(operation)
  {
    var path := operation.path.GetOr("");
    result := operations;
    match operation.methodEntry {
      case MethodList(verbs) =>
        var j := 0;
        while j < |verbs|
          invariant 0 <= j <= |verbs|
          invariant result == operations + ExpandOperation(operation)[..j]
        {
          ExpandVerbStep(operation, j);
          result := result + [Operation(Upper(verbs[j]), path)];
          j := j + 1;
        }
        assert ExpandOperation(operation)[..j] == ExpandOperation(operation);
      case MethodString(verb) =>
        result := result + [Operation(Upper(verb), path)];
      case MethodOther =>
        result := result + [Operation("GET", path)];
    }
  }

  /** The loop of `APIRule.from_oslo` over the operation dictionaries, building the operation list. */
  method CollectOperations(ops: seq<OperationDict>) returns (operations: seq<Operation>)
    ensures operations == ExpandOperations(ops)
  {
    operations := [];
    var i := 0;
    while i < |ops|
      invariant 0 <= i <= |ops|
      invariant operations == ExpandOperations(ops[..i])
    {
      operations := AppendOperations(operations, ops[i]);
      ExpandOperationsSnoc(ops, i);
      i := i + 1;
    }
    assert ops[..i] == ops;
  }

  /** `APIRule.from_oslo`: the description and scope types, the operation list, then the constructor. */
  method ApiRuleFromOslo(parse: Parser, schemas: Schemas, rule: DocumentedRuleDefault)
    returns (r: Result<Rule, Error>)
    ensures r == NewApiRule(parse, schemas, rule.name, rule.checkStr, OsloDescription(rule.description),
                            OsloScopeTypes(rule.scopeTypes), ExpandOperations(rule.operations), "")
  {
    var description := OsloDescription(rule.description);
    var scopeTypes := OsloScopeTypes(rule.scopeTypes);
    var operations := CollectOperations(rule.operations);
    r := NewApiRule(parse, schemas, rule.name, rule.checkStr, description, scopeTypes, operations, "");
  }
}
