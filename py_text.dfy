/**
 * The few Python string operations the policy-rule code relies on, over `string` (a
 * sequence of characters): `str.upper` (ASCII letters only), `str.replace("\n", "\n#")`,
 * the width-8 format of a string (`f"{s:8}"`), `"".join`, the `repr` of a list of plain strings, and
 * `str.split("\n")`, the last of which is used only to state how generated text is laid
 * out in lines.
 */
module PyText {

  predicate NoNewline(s: string) {
    '\n' !in s
  }

  function CountChar(s: string, c: char): nat {
    if s == [] then 0 else (if s[0] == c then 1 else 0) + CountChar(s[1..], c)
  }

  predicate IsLowerAscii(c: char) {
    'a' <= c <= 'z'
  }

  function UpperChar(c: char): char {
    if IsLowerAscii(c) then (c as int - 32) as char else c
  }

  /** `s.upper()`, for the ASCII letters. */
  function Upper(s: string): (r: string)
    ensures |r| == |s|
    ensures forall i :: 0 <= i < |s| ==> !IsLowerAscii(r[i])
    ensures forall i :: 0 <= i < |s| && !IsLowerAscii(s[i]) ==> r[i] == s[i]
    ensures forall i :: 0 <= i < |s| && IsLowerAscii(s[i]) ==> r[i] as int == s[i] as int - 32
  {
    seq(|s|, i requires 0 <= i < |s| => UpperChar(s[i]))
  }

  /** Upper-casing twice is upper-casing once. */
  lemma UpperIdempotent(s: string)
    ensures Upper(Upper(s)) == Upper(s)
  {
  }

  /** Every newline of `s` is directly followed by `#`. */
  predicate HashAfterNewline(s: string) {
    s == [] || ((s[0] == '\n' ==> |s| >= 2 && s[1] == '#') && HashAfterNewline(s[1..]))
  }

  /** A text without newlines has none to count and none left unmarked. */
  lemma {:induction false} SingleLineFacts(s: string)
    requires NoNewline(s)
    ensures CountChar(s, '\n') == 0 && HashAfterNewline(s)
  {
    if s != [] {
      assert s[0] != '\n';
      SingleLineFacts(s[1..]);
    }
  }

  /** The recursive definition above, stated position by position. */
  lemma {:induction false} HashAfterNewlineAt(s: string, i: nat)
    requires HashAfterNewline(s) && i < |s| && s[i] == '\n'
    ensures i + 1 < |s| && s[i + 1] == '#'
  {
    if i > 0 {
      HashAfterNewlineAt(s[1..], i - 1);
    }
  }

  /** What one character becomes under `replace("\n", "\n#")`. */
  function EscapeChar(c: char): string {
    if c == '\n' then "\n#" else [c]
  }

  /** `s.replace("\n", "\n#")`. */
  function EscapeNewlines(s: string): (r: string)
    ensures |r| == |s| + CountChar(s, '\n')
    ensures NoNewline(s) ==> r == s
  {
    if s == [] then [] else EscapeChar(s[0]) + EscapeNewlines(s[1..])
  }

  /** The replacement keeps the number of newlines. */
  lemma {:induction false} EscapeCount(s: string)
    ensures CountChar(EscapeNewlines(s), '\n') == CountChar(s, '\n')
  {
    if s != [] {
      var e := EscapeNewlines(s[1..]);
      EscapeCount(s[1..]);
      if s[0] == '\n' {
        var r := "\n#" + e;
        assert r[1..] == "#" + e;
        assert r[1..][1..] == e;
      } else {
        assert ([s[0]] + e)[1..] == e;
      }
    }
  }

  /** After the replacement every newline is followed by `#`. */
  lemma {:induction false} EscapeHashAfterNewline(s: string)
    ensures HashAfterNewline(EscapeNewlines(s))
  {
    if s != [] {
      var e := EscapeNewlines(s[1..]);
      EscapeHashAfterNewline(s[1..]);
      if s[0] == '\n' {
        var r := "\n#" + e;
        assert r[1..] == "#" + e;
        assert r[1..][1..] == e;
      } else {
        assert ([s[0]] + e)[1..] == e;
      }
    }
  }

  /** Replacing newlines distributes over concatenation. */
  lemma {:induction false} EscapeConcat(a: string, b: string)
    ensures EscapeNewlines(a + b) == EscapeNewlines(a) + EscapeNewlines(b)
  {
    if a == [] {
      assert a + b == b;
    } else {
      var c := a[0];
      assert (a + b)[0] == c;
      assert (a + b)[1..] == a[1..] + b;
      calc {
        EscapeNewlines(a + b);
        EscapeChar(c) + EscapeNewlines(a[1..] + b);
        { EscapeConcat(a[1..], b); }
        EscapeChar(c) + (EscapeNewlines(a[1..]) + EscapeNewlines(b));
        EscapeNewlines(a) + EscapeNewlines(b);
      }
    }
  }

  /** Drops the `#` that follows each newline: the inverse of EscapeNewlines. */
  function UnescapeNewlines(s: string): string {
    if s == [] then []
    else if |s| >= 2 && s[0] == '\n' && s[1] == '#' then "\n" + UnescapeNewlines(s[2..])
    else [s[0]] + UnescapeNewlines(s[1..])
  }

  lemma {:induction false} EscapeRoundTrip(s: string)
    ensures UnescapeNewlines(EscapeNewlines(s)) == s
  {
    if s != [] {
      EscapeRoundTrip(s[1..]);
      var e := EscapeNewlines(s[1..]);
      if s[0] == '\n' {
        assert EscapeNewlines(s) == "\n#" + e;
        assert ("\n#" + e)[2..] == e;
      } else {
        assert EscapeNewlines(s) == [s[0]] + e;
        assert ([s[0]] + e)[1..] == e;
      }
    }
  }

  /** Distinct descriptions stay distinct once escaped. */
  lemma EscapeInjective(s: string, t: string)
    requires EscapeNewlines(s) == EscapeNewlines(t)
    ensures s == t
  {
    EscapeRoundTrip(s);
    EscapeRoundTrip(t);
  }

  function Spaces(n: nat): (r: string)
    ensures |r| == n && forall i :: 0 <= i < n ==> r[i] == ' '
  {
    seq(n, _ => ' ')
  }

  /**
   * `f"{s:width}"` for a string `s`: left-aligned, padded with spaces up to `width`,
   * never truncated.
   */
  function PadRight(s: string, width: nat): (r: string)
    ensures |r| == if |s| < width then width else |s|
    ensures r[..|s|] == s
    ensures forall i :: |s| <= i < |r| ==> r[i] == ' '
  {
    if |s| < width then s + Spaces(width - |s|) else s
  }

  /** `"".join(parts)`. */
  function Join(parts: seq<string>): string {
    if parts == [] then "" else parts[0] + Join(parts[1..])
  }

  /** Each line followed by a newline, as `[f"...\n" for ...]` builds them. */
  function Terminated(lines: seq<string>): (r: seq<string>)
    ensures |r| == |lines|
  {
    seq(|lines|, i requires 0 <= i < |lines| => lines[i] + "\n")
  }

  /** `repr(s)` for a string without quotes, backslashes or unprintable characters. */
  function Quote(s: string): string {
    "'" + s + "'"
  }

  function JoinQuoted(items: seq<string>): (r: string)
    ensures (forall i :: 0 <= i < |items| ==> NoNewline(items[i])) ==> NoNewline(r)
  {
    if items == [] then ""
    else if |items| == 1 then Quote(items[0])
    else Quote(items[0]) + ", " + JoinQuoted(items[1..])
  }

  /** `repr(items)` for a list of plain strings: `['a', 'b']`. */
  function PyListRepr(items: seq<string>): (r: string)
    ensures |r| >= 2 && r[0] == '[' && r[|r| - 1] == ']'
    ensures (forall i :: 0 <= i < |items| ==> NoNewline(items[i])) ==> NoNewline(r)
  {
    "[" + JoinQuoted(items) + "]"
  }

  /** The first index at or after `from` holding `c`, or `|s|` when there is none. */
  function IndexOf(s: string, c: char, from: nat): (k: nat)
    requires from <= |s|
    ensures from <= k <= |s|
    ensures k < |s| ==> s[k] == c
    ensures forall i :: from <= i < k ==> s[i] != c
    decreases |s| - from
  {
    if from == |s| || s[from] == c then from else IndexOf(s, c, from + 1)
  }

  /** Upper-casing never introduces a newline. */
  lemma UpperNoNewline(s: string)
    requires NoNewline(s)
    ensures NoNewline(Upper(s))
  {
    var r := Upper(s);
    forall i | 0 <= i < |r|
      ensures r[i] != '\n'
    {
      if IsLowerAscii(s[i]) {
        assert r[i] as int >= 'a' as int - 32;
      } else {
        assert r[i] == s[i];
      }
    }
  }

  /** `s.split("\n")`: the lines of `s`; there is one more line than there are newlines. */
  function SplitLines(s: string): (ls: seq<string>)
    ensures |ls| == CountChar(s, '\n') + 1
    ensures forall k :: 0 <= k < |ls| ==> NoNewline(ls[k])
  {
    if s == [] then [""]
    else if s[0] == '\n' then [""] + SplitLines(s[1..])
    else
      var rest := SplitLines(s[1..]);
      [[s[0]] + rest[0]] + rest[1..]
  }

  lemma {:induction false} SplitLinesSingle(s: string)
    requires NoNewline(s)
    ensures SplitLines(s) == [s]
  {
    if s != [] {
      SplitLinesSingle(s[1..]);
      assert [s[0]] + s[1..] == s;
    }
  }

  /** Splitting at a newline: the lines of `a + "\n" + b` are those of `a` then those of `b`. */
  lemma {:induction false} SplitLinesAt(a: string, b: string)
    ensures SplitLines(a + "\n" + b) == SplitLines(a) + SplitLines(b)
  {
    var s := a + "\n" + b;
    if a == [] {
      assert s[1..] == b;
    } else {
      assert s[0] == a[0];
      assert s[1..] == a[1..] + "\n" + b;
      SplitLinesAt(a[1..], b);
    }
  }

  lemma JoinTerminatedCons(lines: seq<string>)
    requires lines != []
    ensures Join(Terminated(lines)) == lines[0] + "\n" + Join(Terminated(lines[1..]))
  {
    var t := Terminated(lines);
    assert t[0] == lines[0] + "\n";
    assert t[1..] == Terminated(lines[1..]);
  }

  /** The lines of newline-terminated lines followed by `rest`. */
  lemma {:induction false} SplitTerminatedLines(lines: seq<string>, rest: string)
    requires forall k :: 0 <= k < |lines| ==> NoNewline(lines[k])
    ensures SplitLines(Join(Terminated(lines)) + rest) == lines + SplitLines(rest)
  {
    if lines == [] {
      assert Terminated(lines) == [];
      assert Join(Terminated(lines)) + rest == rest;
    } else {
      var head, tail := lines[0], Join(Terminated(lines[1..]));
      calc {
        SplitLines(Join(Terminated(lines)) + rest);
        { JoinTerminatedCons(lines);
          assert Join(Terminated(lines)) + rest == head + "\n" + (tail + rest); }
        SplitLines(head + "\n" + (tail + rest));
        { SplitLinesAt(head, tail + rest); }
        SplitLines(head) + SplitLines(tail + rest);
        { SplitLinesSingle(head); SplitTerminatedLines(lines[1..], rest); }
        [head] + (lines[1..] + SplitLines(rest));
        { assert lines == [head] + lines[1..]; }
        lines + SplitLines(rest);
      }
    }
  }

  /** A comment line of the generated documentation: it starts with `#`. */
  predicate IsComment(line: string) {
    |line| > 0 && line[0] == '#'
  }

  predicate AllComments(lines: seq<string>) {
    forall k :: 0 <= k < |lines| ==> IsComment(lines[k])
  }

  lemma AllCommentsConcat(a: seq<string>, b: seq<string>)
    requires AllComments(a) && AllComments(b)
    ensures AllComments(a + b)
  {
    forall k | 0 <= k < |a + b| ensures IsComment((a + b)[k]) {
      if k >= |a| {
        assert (a + b)[k] == b[k - |a|];
      }
    }
  }

  /**
   * When every newline of `s` is followed by `#`, every line after the first starts with
   * `#`, and the first line starts with the first character of `s`.
   */
  lemma {:induction false} SplitLinesAfterHash(s: string)
    requires HashAfterNewline(s)
    ensures var ls := SplitLines(s);
      (|s| > 0 && s[0] != '\n' ==> |ls[0]| > 0 && ls[0][0] == s[0]) &&
      forall k :: 1 <= k < |ls| ==> IsComment(ls[k])
  {
    if s != [] {
      SplitLinesAfterHash(s[1..]);
      var ls, rest := SplitLines(s), SplitLines(s[1..]);
      if s[0] == '\n' {
        assert s[1..][0] == s[1] == '#';
        assert ls == [""] + rest;
        forall k | 1 <= k < |ls| ensures IsComment(ls[k]) {
          assert ls[k] == rest[k - 1];
        }
      } else {
        assert ls == [[s[0]] + rest[0]] + rest[1..];
      }
    }
  }

  /**
   * `"# " + text`, where every newline of `text` is followed by `#`, is one comment line
   * per line of `text`.
   */
  lemma CommentedLines(text: string)
    requires HashAfterNewline(text)
    ensures var ls := SplitLines("# " + text);
      |ls| == CountChar(text, '\n') + 1 && AllComments(ls)
  {
    var s := "# " + text;
    assert s[1..] == " " + text;
    assert s[1..][1..] == text;
    assert HashAfterNewline(s);
    assert CountChar(s, '\n') == CountChar(text, '\n');
    SplitLinesAfterHash(s);
  }
}
