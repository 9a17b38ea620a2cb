/**
 * What the policy-rule code consumes from the oslo.policy library: its rule-expression
 * parser, and the rule definitions it reads (`RuleDefault`, `DocumentedRuleDefault`).
 * The grammar is not modelled: a parser is any function from text to a parsed check,
 * or to nothing when the text does not parse.
 */
module OsloPolicy {
  import opened Wrappers

  /** A parsed check expression; this code stores it and never looks inside. */
  type Check

  /** `_parser.parse_rule`: `Some(check)` when the text parses, `None` when it is rejected. */
  type Parser = string -> Option<Check>

  /** `RuleDefault`: `description` is `None` when the definition has none. */
  datatype RuleDefault = RuleDefault(name: string, checkStr: string, description: Option<string>)

  /** The `method` entry of an operation dictionary: a list of verbs, one verb, or anything else (missing included). */
  datatype MethodField = MethodList(verbs: seq<string>) | MethodString(verb: string) | MethodOther

  /** One operation dictionary of a documented rule; `path` is `None` when the key is missing. */
  datatype OperationDict = OperationDict(methodEntry: MethodField, path: Option<string>)

  /** The `scope_types` attribute: a list, or anything else (`None` included). */
  datatype ScopeTypesField = ScopeTypesList(items: seq<string>) | ScopeTypesOther

  /** `DocumentedRuleDefault`. */
  datatype DocumentedRuleDefault = DocumentedRuleDefault(
    name: string,
    checkStr: string,
    description: Option<string>,
    scopeTypes: ScopeTypesField,
    operations: seq<OperationDict>)
}
