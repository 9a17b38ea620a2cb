/**
 * What the generated policy documentation looks like, line by line: every block
 * `format_into_yaml` produces is a run of `#` comment lines, then the rule's own
 * `"name": "check"` entry, then a blank line; and the entry line gives the rule's name
 * and check string back.
 */
module PolicyYaml {
  import opened Wrappers
  import opened PyText
  import opened OsloPolicy
  import opened PolicySchemas
  import opened PolicyRules
  import opened Seqs

  /** Reads a `"name": "check"` entry back into its name and check string. */
  function EntryKey(line: string): Option<(string, string)> {
    if |line| < 2 || line[0] != '"' || line[|line| - 1] != '"' then None
    else
      var j := IndexOf(line, '"', 1);
      if j + 4 <= |line| - 1 && line[j..j + 4] == "\": \"" then
        Some((line[1..j], line[j + 4..|line| - 1]))
      else None
  }

  /** The entry `__str__` renders names the rule it came from, when the name holds no quote. */
  lemma EntryKeyOfStr(r: Rule)
    requires '"' !in r.name
    ensures EntryKey(Str(r)) == Some((r.name, r.checkStr))
  {
    var s, n := Str(r), |r.name|;
    assert |s| == n + |r.checkStr| + 6;
    assert s[1..1 + n] == r.name;
    assert s[1 + n..5 + n] == "\": \"";
    assert s[5 + n..|s| - 1] == r.checkStr;
    assert s[1 + n] == '"';
  }

  /** For quote-free names, two rules render the same entry exactly when they are equal. */
  lemma StrDeterminesEquality(a: Rule, b: Rule)
    requires '"' !in a.name && '"' !in b.name
    ensures Str(a) == Str(b) <==> Eq(a, RuleObject(b))
  {
    EntryKeyOfStr(a);
    EntryKeyOfStr(b);
  }

  /** Name, check string, scope types and operations each fit on one line. */
  predicate SingleLineFields(r: Rule) {
    && NoNewline(r.name)
    && NoNewline(r.checkStr)
    && (r.ApiRule? ==>
         && (forall i :: 0 <= i < |r.scopeTypes| ==> NoNewline(r.scopeTypes[i]))
         && SingleLineOperations(r.operations))
  }

  predicate SingleLineOperations(ops: seq<Operation>) {
    forall i :: 0 <= i < |ops| ==> NoNewline(ops[i].verb) && NoNewline(ops[i].path)
  }

  /** The comment lines of a block, as they read once the text is split at its newlines. */
  function CommentLines(r: Rule): seq<string> {
    SplitLines("# " + r.description) +
    (if r.ApiRule? then OperationComments(r.operations) + [ScopeComment(r.scopeTypes)] else [])
  }

  lemma StrSingleLine(r: Rule)
    requires NoNewline(r.name) && NoNewline(r.checkStr)
    ensures NoNewline(Str(r))
  {
  }

  lemma OperationCommentsSingleLine(ops: seq<Operation>)
    requires SingleLineOperations(ops)
    ensures forall k :: 0 <= k < |ops| ==> NoNewline(OperationComments(ops)[k])
  {
    forall k | 0 <= k < |ops|
      ensures NoNewline(OperationComments(ops)[k])
    {
      var p := PadRight(ops[k].verb, 8);
      assert forall i :: 0 <= i < |p| ==> p[i] != '\n' by {
        forall i | 0 <= i < |p| ensures p[i] != '\n' {
          if i < |ops[k].verb| {
            assert p[i] == p[..|ops[k].verb|][i] == ops[k].verb[i];
          }
        }
      }
    }
  }

  /**
   * The tail shared by both layouts: `entry + "\n\n"` is the entry line, one blank line,
   * and the empty piece `split` returns after the final newline.
   */
  lemma EntryTailLines(r: Rule)
    requires NoNewline(r.name) && NoNewline(r.checkStr)
    ensures SplitLines(Str(r) + "\n\n") == [Str(r), "", ""]
  {
    StrSingleLine(r);
    assert Str(r) + "\n\n" == Str(r) + "\n" + ("" + "\n" + "");
    SplitLinesAt(Str(r), "" + "\n" + "");
    SplitLinesAt("", "");
    SplitLinesSingle(Str(r));
  }

  lemma RuleYamlLines(r: Rule)
    requires r.Rule? && SingleLineFields(r)
    ensures SplitLines(FormatIntoYaml(r)) == SplitLines("# " + r.description) + [Str(r), "", ""]
  {
    EntryTailLines(r);
    SplitLinesAt("# " + r.description, Str(r) + "\n\n");
  }

  /** The scope line followed by the entry. */
  lemma ScopeEntryLines(r: Rule)
    requires r.ApiRule? && SingleLineFields(r)
    ensures SplitLines(ScopeComment(r.scopeTypes) + "\n" + (Str(r) + "\n\n")) ==
      [ScopeComment(r.scopeTypes), Str(r), "", ""]
  {
    var scope := ScopeComment(r.scopeTypes);
    EntryTailLines(r);
    SplitLinesAt(scope, Str(r) + "\n\n");
    assert NoNewline(scope) by {
      assert NoNewline(PyListRepr(r.scopeTypes));
    }
    SplitLinesSingle(scope);
  }

  lemma ApiRuleYamlLines(r: Rule)
    requires r.ApiRule? && SingleLineFields(r)
    ensures SplitLines(FormatIntoYaml(r)) ==
      SplitLines("# " + r.description) + OperationComments(r.operations) + [ScopeComment(r.scopeTypes), Str(r), "", ""]
  {
    var comments := OperationComments(r.operations);
    var rest := ScopeComment(r.scopeTypes) + "\n" + (Str(r) + "\n\n");
    SplitLinesAt("# " + r.description, Join(Terminated(comments)) + rest);
    OperationCommentsSingleLine(r.operations);
    SplitTerminatedLines(comments, rest);
    ScopeEntryLines(r);
  }

  /** The lines of a block: its comment lines, then the entry, then the empty lines around the final newline. */
  lemma YamlLines(r: Rule)
    requires SingleLineFields(r)
    ensures SplitLines(FormatIntoYaml(r)) == CommentLines(r) + [Str(r), "", ""]
  {
    if r.Rule? {
      RuleYamlLines(r);
    } else {
      ApiRuleYamlLines(r);
    }
  }

  lemma OperationCommentsCommented(ops: seq<Operation>)
    ensures AllComments(OperationComments(ops))
  {
    var c := OperationComments(ops);
    forall k | 0 <= k < |c| ensures IsComment(c[k]) {
      assert c[k] == OperationComment(ops[k]);
    }
  }

  /** The comment lines of a block all start with `#` when its description keeps a `#` after every newline. */
  lemma CommentLinesCommented(r: Rule)
    requires HashAfterNewline(r.description)
    ensures var c := CommentLines(r);
      && |c| == CountChar(r.description, '\n') + 1 + (if r.ApiRule? then |r.operations| + 1 else 0)
      && AllComments(c)
  {
    CommentedLines(r.description);
    var head := SplitLines("# " + r.description);
    if r.ApiRule? {
      var ops := OperationComments(r.operations);
      var scope := ScopeComment(r.scopeTypes);
      assert CommentLines(r) == head + (ops + [scope]);
      OperationCommentsCommented(r.operations);
      AllCommentsConcat(ops, [scope]);
      AllCommentsConcat(head, ops + [scope]);
    } else {
      assert CommentLines(r) == head;
    }
  }

  /**
   * A block whose description keeps a `#` after every newline is a run of comment lines
   * (one per description line, one per operation and one for the scope types of an API
   * rule), then the entry line, then an empty line before the final newline.
   */
  lemma YamlBlockShape(r: Rule)
    requires SingleLineFields(r) && HashAfterNewline(r.description)
    ensures var ls := SplitLines(FormatIntoYaml(r)); var n := |ls|;
      && n == CountChar(r.description, '\n') + 4 + (if r.ApiRule? then |r.operations| + 1 else 0)
      && AllComments(ls[..n - 3])
      && ls[n - 3] == Str(r) && ls[n - 2] == "" && ls[n - 1] == ""
  {
    YamlLines(r);
    CommentLinesCommented(r);
    var c := CommentLines(r);
    var ls := SplitLines(FormatIntoYaml(r));
    assert ls == c + [Str(r), "", ""];
    assert ls[..|ls| - 3] == c;
  }

  /** In an API rule's block, operation `k` is on the line after the description and the `k` before it, then comes the scope line. */
  lemma ApiYamlOperationLines(r: Rule)
    requires r.ApiRule? && SingleLineFields(r)
    ensures var ls := SplitLines(FormatIntoYaml(r)); var d := CountChar(r.description, '\n') + 1;
      && |ls| == d + |r.operations| + 4
      && (forall k :: 0 <= k < |r.operations| ==>
            ls[d + k] == "# " + PadRight(r.operations[k].verb, 8) + r.operations[k].path)
      && ls[d + |r.operations|] == "# Intended scope(s): " + PyListRepr(r.scopeTypes)
  {
    ApiRuleYamlLines(r);
    var head := SplitLines("# " + r.description);
    var d := |head|;
    assert d == CountChar(r.description, '\n') + 1 by {
      assert ("# " + r.description)[1..][1..] == r.description;
    }
    var ops := OperationComments(r.operations);
    var tail := [ScopeComment(r.scopeTypes), Str(r), "", ""];
    var ls := SplitLines(FormatIntoYaml(r));
    assert ls == head + ops + tail;
    forall k | 0 <= k < |r.operations|
      ensures ls[d + k] == "# " + PadRight(r.operations[k].verb, 8) + r.operations[k].path
    {
      IndexMiddle(head, ops, tail, k);
    }
    IndexAfterMiddle(head, ops, tail);
  }

  /**
   * A `Rule` block whose fields fit on one line and whose description has as many lines as
   * `text`: comment lines, then an entry that reads back as the rule's key.
   */
  lemma RuleBlockShape(r: Rule, text: string, name: string, checkStr: string)
    requires r.Rule? && r.name == name && r.checkStr == checkStr && NoNewline(name) && NoNewline(checkStr)
    requires HashAfterNewline(r.description) && CountChar(r.description, '\n') == CountChar(text, '\n')
    ensures var ls := SplitLines(FormatIntoYaml(r)); var n := |ls|;
      && n == CountChar(text, '\n') + 4
      && AllComments(ls[..n - 3])
      && ('"' !in name ==> EntryKey(ls[n - 3]) == Some((name, checkStr)))
  {
    YamlBlockShape(r);
    if '"' !in name {
      EntryKeyOfStr(r);
    }
  }

  /** A rule read from an oslo definition documents itself as comment lines followed by its entry. */
  lemma RuleFromOsloYamlShape(parse: Parser, rule: RuleDefault)
    requires RuleFromOslo(parse, rule).Success?
    requires NoNewline(rule.name) && NoNewline(rule.checkStr)
    ensures var ls := SplitLines(FormatIntoYaml(RuleFromOslo(parse, rule).value)); var n := |ls|;
      && n == CountChar(rule.description.GetOr(""), '\n') + 4
      && AllComments(ls[..n - 3])
      && ('"' !in rule.name ==> EntryKey(ls[n - 3]) == Some((rule.name, rule.checkStr)))
  {
    RuleBlockShape(RuleFromOslo(parse, rule).value, rule.description.GetOr(""), rule.name, rule.checkStr);
  }

  /** An operation dictionary whose verbs and path fit on one line. */
  predicate SingleLineDict(op: OperationDict) {
    && NoNewline(op.path.GetOr(""))
    && (op.methodEntry.MethodList? ==> forall i :: 0 <= i < |op.methodEntry.verbs| ==> NoNewline(op.methodEntry.verbs[i]))
    && (op.methodEntry.MethodString? ==> NoNewline(op.methodEntry.verb))
  }

  lemma {:induction false} ExpandOperationsSingleLine(ops: seq<OperationDict>)
    requires forall i :: 0 <= i < |ops| ==> SingleLineDict(ops[i])
    ensures SingleLineOperations(ExpandOperations(ops))
  {
    if ops != [] {
      var head := ExpandOperation(ops[0]);
      assert SingleLineDict(ops[0]);
      forall k | 0 <= k < |head| ensures NoNewline(head[k].verb) && NoNewline(head[k].path) {
        assert head[k].path == ops[0].path.GetOr("");
        match ops[0].methodEntry
        case MethodList(verbs) => UpperNoNewline(verbs[k]);
        case MethodString(verb) => UpperNoNewline(verb);
        case MethodOther => assert head[k].verb == "GET";
      }
      ExpandOperationsSingleLine(ops[1..]);
      SingleLineOperationsConcat(head, ExpandOperations(ops[1..]));
    }
  }

  lemma SingleLineOperationsConcat(a: seq<Operation>, b: seq<Operation>)
    requires SingleLineOperations(a) && SingleLineOperations(b)
    ensures SingleLineOperations(a + b)
  {
    forall k | 0 <= k < |a + b| ensures NoNewline((a + b)[k].verb) && NoNewline((a + b)[k].path) {
      if k >= |a| {
        assert (a + b)[k] == b[k - |a|];
      }
    }
  }

  /**
   * An API rule read from a documented oslo definition documents itself as comment lines
   * (its description's lines, one per expanded operation, the scope line), then its entry.
   */
  lemma ApiRuleFromOsloYamlShape(parse: Parser, schemas: Schemas, rule: DocumentedRuleDefault)
    requires NewApiRule(parse, schemas, rule.name, rule.checkStr, OsloDescription(rule.description),
                        OsloScopeTypes(rule.scopeTypes), ExpandOperations(rule.operations), "").Success?
    requires NoNewline(rule.name) && NoNewline(rule.checkStr)
    requires rule.scopeTypes.ScopeTypesList? ==>
      forall i :: 0 <= i < |rule.scopeTypes.items| ==> NoNewline(rule.scopeTypes.items[i])
    requires forall i :: 0 <= i < |rule.operations| ==> SingleLineDict(rule.operations[i])
    ensures var r := NewApiRule(parse, schemas, rule.name, rule.checkStr, OsloDescription(rule.description),
                                OsloScopeTypes(rule.scopeTypes), ExpandOperations(rule.operations), "").value;
      var ls := SplitLines(FormatIntoYaml(r)); var n := |ls|;
      && n == CountChar(rule.description.GetOr(""), '\n') + 5 + TotalWidth(rule.operations)
      && AllComments(ls[..n - 3])
      && ls[n - 3] == Str(r)
  {
    var desc := OsloDescription(rule.description);
    var scopeTypes, ops := OsloScopeTypes(rule.scopeTypes), ExpandOperations(rule.operations);
    var r := NewApiRule(parse, schemas, rule.name, rule.checkStr, desc, scopeTypes, ops, "").value;
    var base := NewRule(parse, rule.name, rule.checkStr, desc, "").value;
    assert BaseRule(r) == base;
    assert HashAfterNewline(r.description) && CountChar(r.description, '\n') == CountChar(desc, '\n') by {
      assert r.description == DefaultDescription(desc);
      DefaultDescriptionLines(desc);
    }
    assert r.ApiRule? && r.name == rule.name && r.checkStr == rule.checkStr;
    assert r.scopeTypes == scopeTypes && r.operations == ops;
    assert SingleLineFields(r) by {
      ExpandOperationsSingleLine(rule.operations);
    }
    ApiBlockShape(r, rule.description.GetOr(""), TotalWidth(rule.operations));
  }

  /**
   * An `APIRule` block whose fields fit on one line and whose description has as many
   * lines as `text`: comment lines, then the entry.
   */
  lemma ApiBlockShape(r: Rule, text: string, width: nat)
    requires r.ApiRule? && SingleLineFields(r) && |r.operations| == width
    requires HashAfterNewline(r.description) && CountChar(r.description, '\n') == CountChar(text, '\n')
    ensures var ls := SplitLines(FormatIntoYaml(r)); var n := |ls|;
      && n == CountChar(text, '\n') + 5 + width
      && AllComments(ls[..n - 3])
      && ls[n - 3] == Str(r)
  {
    YamlBlockShape(r);
  }

  // Worked examples.

  lemma ExampleRuleYaml(check: Check)
    ensures FormatIntoYaml(Rule("r1", "role:admin", check, "desc", "role:admin", check))
            == "# desc\n\"r1\": \"role:admin\"\n\n"
  {
  }

  /** A two-line description gains one `#`, at the start of its second line. */
  lemma EscapeTwoLines(a: string, b: string)
    requires NoNewline(a) && NoNewline(b)
    ensures EscapeNewlines(a + "\n" + b) == a + "\n#" + b
  {
    assert EscapeNewlines("\n") == "\n#" by {
      assert "\n"[1..] == [];
    }
    calc {
      EscapeNewlines(a + "\n" + b);
      { EscapeConcat(a + "\n", b); }
      EscapeNewlines(a + "\n") + EscapeNewlines(b);
      { EscapeConcat(a, "\n"); }
      EscapeNewlines(a) + EscapeNewlines("\n") + EscapeNewlines(b);
      a + "\n#" + b;
    }
  }

  lemma ExampleOperationExpansion()
    ensures ExpandOperations([OperationDict(MethodList(["get", "post"]), Some("/v1/x"))])
            == [Operation("GET", "/v1/x"), Operation("POST", "/v1/x")]
  {
    assert Upper("get") == "GET";
    assert Upper("post") == "POST";
    var ops := [OperationDict(MethodList(["get", "post"]), Some("/v1/x"))];
    assert ops[1..] == [];
  }
}
