# Skyline policy rules in Dafny

This project models skyline-apiserver's policy-rule classes, `Rule` and its subclass `APIRule`. It proves
what their constructors, renderers, equality and oslo.policy converters promise.

- **Rule.** A rule has a name and a check string. It also has a description and a "basic" check string,
  and both check strings are parsed into checks by oslo.policy's rule parser.
- **APIRule.** An API rule adds the rule's scope types and a list of `(method, path)` operations. Both are
  validated by skyline's schemas.
- **Documentation.** `format_into_yaml` renders a rule as a block of policy documentation.
- **Conversion.** `from_oslo` builds a rule from an oslo.policy `RuleDefault` or `DocumentedRuleDefault`.

No method of either class assigns a field after the constructor has run. So both classes are one
datatype, `PolicyRules.Rule`, with one variant per class. The two lists an API rule stores are values
here, while the Python object keeps the caller's own lists (see "## Left out"). Each constructor is a
function returning a `Result`: the value on success, or the error the constructor raises.

Two collaborators are parameters rather than code:

- **The rule parser (`Parser`).** It maps a check string to a parsed `Check`, or to nothing when the text
  is rejected. The real oslo.policy parser never rejects anything, so it is the parser that always
  answers `Some`.
- **The schemas (`Schemas`).** Two predicates say whether the scope types and the operations are accepted.

The operation loop of `APIRule.from_oslo` is a method with nested `while` loops. It is proved to compute
the specification function `ExpandOperations`.

Modules:

- `Wrappers`: `Option` and `Result`.
- `PyText`: the Python string operations the code uses, over `string`:
  - `str.upper`
  - `str.replace("\n", "\n#")`
  - the `{:8}` format
  - `"".join`
  - the `repr` of a list of strings
  - `str.split("\n")`, used only to state line layout
- `OsloPolicy`: the parser type and the oslo.policy rule definitions.
- `PolicySchemas`: `Operation` and the schema predicates.
- `PolicyRules`: the two classes.
- `PolicyYaml`: the line-by-line layout of the generated documentation.
- `Seqs`: generic facts about slicing and indexing a three-way concatenation.

## Model

| member | source | states |
|---|---|---|
| PolicyRules.DefaultDescription | libs/skyline-apiserver/skyline_apiserver/policy/manager/base.py:35 | the stored description is never empty: a non-empty description is kept unchanged, and an empty one becomes "No description" |
| PolicyRules.NoDescriptionText | libs/skyline-apiserver/skyline_apiserver/policy/manager/base.py:35 | the placeholder is exactly the text `"No description"` |
| PolicyRules.EmptyDescriptionDefault | libs/skyline-apiserver/skyline_apiserver/policy/manager/base.py:35 | a rule constructed with an empty description stores "No description" |
| PolicyRules.DefaultDescriptionLines | libs/skyline-apiserver/skyline_apiserver/policy/manager/base.py:35 | defaulting keeps the newline count and keeps every newline followed by `#` ("No description" is a single line) |
| PolicyRules.NewRule | libs/skyline-apiserver/skyline_apiserver/policy/manager/base.py:25-37 | construction succeeds iff the check string and the effective basic check string both parse; otherwise it raises the parse error of the first string that fails; on success the rule is a `Rule`, keeps its name and check string, stores the parsed checks, stores `description or "No description"`, and stores `basic_check_str or check_str` |
| PolicyRules.NewApiRule | libs/skyline-apiserver/skyline_apiserver/policy/manager/base.py:64-79 | succeeds iff the base constructor succeeds and both schemas accept; the errors come in source order (the base error first, then the scope-types error, then the operations error); on success the rule has the base rule's fields and stores the scope types and operations as given |
| PolicyRules.BasicCheckDefault | libs/skyline-apiserver/skyline_apiserver/policy/manager/base.py:36-37 | without a basic check string, the basic check string and the basic check are the check string and the check |
| PolicyRules.EqIgnoresDescriptionAndBasic | libs/skyline-apiserver/skyline_apiserver/policy/manager/base.py:45-48 | two rules built from the same name and check string are equal, whatever their descriptions and basic check strings |
| PolicyRules.EqLaws | libs/skyline-apiserver/skyline_apiserver/policy/manager/base.py:45-48 | equality is reflexive, symmetric and transitive on rules, and a rule never equals a non-rule |
| PolicyRules.Str | libs/skyline-apiserver/skyline_apiserver/policy/manager/base.py:39-40 | `f'"{name}": "{check_str}"'`; its properties are stated by `PolicyYaml.EntryKeyOfStr` and `PolicyYaml.StrDeterminesEquality` |
| PolicyRules.Eq | libs/skyline-apiserver/skyline_apiserver/policy/manager/base.py:45-48 | equal rules render the same entry `str(rule)`, and only rules can be equal; the laws are in `EqLaws` and `EqIgnoresDescriptionAndBasic` |
| PolicyRules.ApiRuleEqualsItsBase | libs/skyline-apiserver/skyline_apiserver/policy/manager/base.py:73 | an API rule and the plain rule built from the same arguments are different objects but compare equal in both directions |
| PolicyRules.OperationComment | libs/skyline-apiserver/skyline_apiserver/policy/manager/base.py:83 | one operation's line (without its newline) is a comment whose length is 2 plus the padded method width plus the path length; `PolicyYaml.ApiYamlOperationLines` gives its exact text and position |
| PolicyRules.OperationComments | libs/skyline-apiserver/skyline_apiserver/policy/manager/base.py:82-85 | one line per operation, in the order of the list; `PolicyYaml.ApiYamlOperationLines` places each one in the block |
| PolicyRules.ScopeComment | libs/skyline-apiserver/skyline_apiserver/policy/manager/base.py:87 | the scope line is a comment line; `PolicyYaml.ApiYamlOperationLines` gives its text and position |
| PolicyRules.FormatIntoYaml | libs/skyline-apiserver/skyline_apiserver/policy/manager/base.py:50-92 | both `format_into_yaml` methods; their layout is stated by `PolicyYaml.YamlLines`, `PolicyYaml.YamlBlockShape` and `PolicyYaml.ApiYamlOperationLines`, and one output in full by `PolicyYaml.ExampleRuleYaml` |
| PolicyRules.OsloDescription | libs/skyline-apiserver/skyline_apiserver/policy/manager/base.py:58-59 | the converted description has a `#` after every newline, the same newline count, and is empty iff the original is missing or empty; removing the `#`s gives the original back |
| PolicyRules.RuleFromOslo | libs/skyline-apiserver/skyline_apiserver/policy/manager/base.py:56-60 | succeeds iff the check string parses (it raises the parse error otherwise); the result is a `Rule` with the definition's name and check string, the check string as basic check string, a `#` after every newline of the description and the same line count; a missing or empty description becomes "No description", and any other description unescapes to the original |
| PolicyRules.OsloScopeTypes | libs/skyline-apiserver/skyline_apiserver/policy/manager/base.py:98-101 | a list is copied element by element, with the same order and length; anything else becomes `["project"]` |
| PolicyRules.ExpandOperation | libs/skyline-apiserver/skyline_apiserver/policy/manager/base.py:104-113 | a list method gives one operation per verb, upper-cased, in order; a string method gives one upper-cased operation; anything else gives one `GET`; every operation gets the dictionary's path, or `""` when it has none |
| PolicyRules.ExpandOperations | libs/skyline-apiserver/skyline_apiserver/policy/manager/base.py:102-113 | the result has one operation per listed verb plus one per other dictionary |
| PolicyRules.ExpandOperationsConcat | libs/skyline-apiserver/skyline_apiserver/policy/manager/base.py:103-113 | expanding a concatenation concatenates the expansions, and the widths add up |
| PolicyRules.ExpandOperationsBlock | libs/skyline-apiserver/skyline_apiserver/policy/manager/base.py:103-113 | order is kept: the operations of the `i`-th dictionary form one contiguous block, starting after those of all earlier dictionaries |
| PolicyRules.AppendOperations | libs/skyline-apiserver/skyline_apiserver/policy/manager/base.py:104-113 | one turn of the loop appends exactly the expansion of the current dictionary |
| PolicyRules.CollectOperations | libs/skyline-apiserver/skyline_apiserver/policy/manager/base.py:102-113 | the loop builds exactly `ExpandOperations` of the dictionaries |
| PolicyRules.ApiRuleFromOslo | libs/skyline-apiserver/skyline_apiserver/policy/manager/base.py:94-120 | the result is the API-rule constructor applied to the definition's name and check string, the converted description, the converted scope types and the expanded operations |
| PyText.Upper | libs/skyline-apiserver/skyline_apiserver/policy/manager/base.py:107 | upper-casing keeps the length, leaves no lower-case ASCII letter, changes only lower-case letters, and moves each one to its capital |
| PyText.UpperIdempotent | libs/skyline-apiserver/skyline_apiserver/policy/manager/base.py:107 | upper-casing an upper-cased verb changes nothing |
| PyText.EscapeNewlines | libs/skyline-apiserver/skyline_apiserver/policy/manager/base.py:59 | the result is one character longer per newline, and a text without newlines is unchanged |
| PyText.EscapeCount | libs/skyline-apiserver/skyline_apiserver/policy/manager/base.py:59 | the replacement keeps the number of newlines |
| PyText.EscapeHashAfterNewline | libs/skyline-apiserver/skyline_apiserver/policy/manager/base.py:59 | after the replacement, every newline is directly followed by `#` |
| PyText.EscapeConcat | libs/skyline-apiserver/skyline_apiserver/policy/manager/base.py:59 | the replacement distributes over concatenation |
| PyText.EscapeRoundTrip | libs/skyline-apiserver/skyline_apiserver/policy/manager/base.py:59 | dropping the `#` after each newline undoes the replacement |
| PyText.EscapeInjective | libs/skyline-apiserver/skyline_apiserver/policy/manager/base.py:59 | distinct descriptions stay distinct after the replacement |
| PyText.SplitTerminatedLines | libs/skyline-apiserver/skyline_apiserver/policy/manager/base.py:83-86 | joining lines that each end in a newline, followed by more text, splits back into those lines followed by the lines of that text |
| PyText.PadRight | libs/skyline-apiserver/skyline_apiserver/policy/manager/base.py:83 | `{:8}` on a string left-aligns it and pads it with spaces to `max(8, len)`; it never truncates |
| PyText.Join | libs/skyline-apiserver/skyline_apiserver/policy/manager/base.py:86 | `"".join`; `PyText.SplitTerminatedLines` states that joining newline-terminated lines and splitting again gives the lines back |
| PyText.Terminated | libs/skyline-apiserver/skyline_apiserver/policy/manager/base.py:83 | each operation line gets its own newline, one per line; its effect on the layout is stated by `PyText.SplitTerminatedLines` |
| PyText.Quote | libs/skyline-apiserver/skyline_apiserver/policy/manager/base.py:87 | one scope type as `repr` shows it, between single quotes (the simplification is listed under "## Left out") |
| PyText.JoinQuoted | libs/skyline-apiserver/skyline_apiserver/policy/manager/base.py:87 | the quoted items separated by `", "`; no newline appears when no item holds one |
| PyText.PyListRepr | libs/skyline-apiserver/skyline_apiserver/policy/manager/base.py:87 | the scope types render between `[` and `]`, on one line when no item holds a newline |
| PyText.CommentedLines | libs/skyline-apiserver/skyline_apiserver/policy/manager/base.py:51 | `"# " + description`, with `#` after every newline, is one comment line per description line |
| PolicyYaml.EntryKeyOfStr | libs/skyline-apiserver/skyline_apiserver/policy/manager/base.py:39-40 | `str(rule)` is `"name": "check_str"`: reading the entry back gives the name and check string (for a name with no quote) |
| PolicyYaml.StrDeterminesEquality | libs/skyline-apiserver/skyline_apiserver/policy/manager/base.py:39-48 | for names with no quote, two rules render the same entry iff they compare equal |
| PolicyYaml.RuleYamlLines | libs/skyline-apiserver/skyline_apiserver/policy/manager/base.py:50-54 | a `Rule` block is the description's lines, then the entry line, then the blank line of `"\n\n"` and the empty piece `split` returns after the final newline |
| PolicyYaml.ApiRuleYamlLines | libs/skyline-apiserver/skyline_apiserver/policy/manager/base.py:81-92 | an `APIRule` block is the description's lines, one comment line per operation in order, the scope line, the entry line, the blank line, and the empty piece after the final newline |
| PolicyYaml.YamlLines | libs/skyline-apiserver/skyline_apiserver/policy/manager/base.py:50-92 | both layouts: the comment lines, then the entry, then the blank line and the empty piece after the final newline |
| PolicyYaml.CommentLinesCommented | libs/skyline-apiserver/skyline_apiserver/policy/manager/base.py:81-92 | when the description has a `#` after every newline, all comment lines start with `#`; there is one per description line, plus one per operation and one for the scope types for an API rule |
| PolicyYaml.YamlBlockShape | libs/skyline-apiserver/skyline_apiserver/policy/manager/base.py:50-92 | the block's line count; every line before the entry is a comment; the entry line is `str(rule)`, followed by the blank line and the empty piece after the final newline |
| PolicyYaml.ApiYamlOperationLines | libs/skyline-apiserver/skyline_apiserver/policy/manager/base.py:82-87 | operation `k` is rendered as `"# " + pad8(method) + path` on the `k`-th line after the description, and the scope line follows the last operation |
| PolicyYaml.RuleBlockShape | libs/skyline-apiserver/skyline_apiserver/policy/manager/base.py:50-54 | a `Rule` block has as many comment lines as the description has lines, and its entry line reads back as the rule's name and check string |
| PolicyYaml.ApiBlockShape | libs/skyline-apiserver/skyline_apiserver/policy/manager/base.py:81-92 | an `APIRule` block has as many comment lines as its description has lines, plus one per operation and one for the scope line; its entry is `str(rule)` |
| PolicyYaml.RuleFromOsloYamlShape | libs/skyline-apiserver/skyline_apiserver/policy/manager/base.py:56-60 | a rule converted from oslo documents itself as one comment line per line of the original description, then an entry naming the definition's rule and check string |
| PolicyYaml.ExpandOperationsSingleLine | libs/skyline-apiserver/skyline_apiserver/policy/manager/base.py:102-113 | expansion brings in no newline: verbs and paths without newlines stay without them |
| PolicyYaml.ApiRuleFromOsloYamlShape | libs/skyline-apiserver/skyline_apiserver/policy/manager/base.py:94-120 | an API rule converted from oslo documents itself as: the original description's lines, one line per expanded operation, the scope line, all comments; then its entry |
| PolicyYaml.ExampleRuleYaml | libs/skyline-apiserver/skyline_apiserver/policy/manager/base.py:50-54 | a concrete rule renders to `# desc`, then `"r1": "role:admin"`, then an empty line |
| PolicyYaml.EscapeTwoLines | libs/skyline-apiserver/skyline_apiserver/policy/manager/base.py:59 | a two-line description gains exactly one `#`, at the start of its second line |
| PolicyYaml.ExampleOperationExpansion | libs/skyline-apiserver/skyline_apiserver/policy/manager/base.py:103-107 | a dictionary with methods `["get", "post"]` and a path expands to `GET` and `POST` on that path |

## Left out

- The oslo.policy rule grammar: the parser is a caller-supplied function. The real parser turns text it cannot read into a check that always denies, so it is the instance that never answers `None`.
- The enumerations of `ScopeTypesSchema` and `OperationsSchema` (`skyline_apiserver.schemas.policy_manager` is not part of this model): they are caller-supplied predicates. The error type pydantic raises is reduced to which validator failed.
- PyText.Upper: upper-cases ASCII letters only. Python's `str.upper` also maps other Unicode letters, and can change a string's length (`"ß"` becomes `"SS"`).
- PyText.PyListRepr: renders each scope type as `'item'`. It ignores how Python's `repr` chooses quotes and escapes characters, which applies when an item holds a quote, a backslash or an unprintable character.
- PolicyRules.NewApiRule: stores the scope types and operations as values. The constructor stores the caller's own list objects (base.py:76 and base.py:79). If the caller changes a list later, the rule's `format_into_yaml` prints the new contents, and the schemas never check them. This aliasing is not modelled.
- `Rule.__repr__` (base.py:42-43): cosmetic, and nothing in the core uses it.
- Values outside the declared types are not modelled, because the model types each field:
  - non-string items in a list-valued `method`
  - a `path` key present with the value `None`
  - a `description` that is neither a string nor `None`
- Operations are read in `APIRule.format_into_yaml` through `.get("method")` and `.get("path")`. The model reads the two fields of `Operation` directly.
- `skyline_apiserver/api/v1/gec.py` and `skyline_apiserver/schemas/gec.py`: HTTP endpoints returning mock data, random samples and timestamps, plus response-model declarations. There is no policy logic in either.
- Python object identity, `isinstance` on arbitrary classes, and hashing: equality is modelled against "a rule" or "something else".
