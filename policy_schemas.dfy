/**
 * The skyline schemas the API rule is validated against. Their enumerations are not part
 * of this model: each validator is a predicate supplied by the caller.
 */
module PolicySchemas {

  /** A validated operation: an HTTP method and a URL path. */
  datatype Operation = Operation(verb: string, path: string)

  /** `ScopeTypesSchema.parse_obj` and `OperationsSchema.parse_obj`: true when they accept. */
  datatype Schemas = Schemas(scopeTypesValid: seq<string> -> bool, operationsValid: seq<Operation> -> bool)
}
