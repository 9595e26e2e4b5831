/**
 * Instant-vector selectors as the federation handler sees them: the text of one
 * `match[]` argument is matched in full against `([a-zA-Z_:][a-zA-Z0-9_:]*)?({.*})?`
 * (where `.` is any character but a newline) and, when it matches, the namespace
 * matcher is spliced into its label block.
 */
module Selector {
  import opened Wrappers

  predicate IsNameStart(c: char) {
    'a' <= c <= 'z' || 'A' <= c <= 'Z' || c == '_' || c == ':'
  }

  predicate IsNameChar(c: char) {
    IsNameStart(c) || '0' <= c <= '9'
  }

  /** Text matched by the first group, `[a-zA-Z_:][a-zA-Z0-9_:]*`. */
  predicate IsMetricName(s: string) {
    |s| > 0 && IsNameStart(s[0]) && forall i :: 1 <= i < |s| ==> IsNameChar(s[i])
  }

  /** Text matched by the second group, `{.*}`: braces around any run of non-newline characters. */
  predicate IsLabelBlock(s: string) {
    |s| >= 2 && s[0] == '{' && s[|s| - 1] == '}' && forall i :: 0 <= i < |s| ==> s[i] != '\n'
  }

  /** The regular expression's full-match relation, stated directly: some split point makes both optional groups match. */
  ghost predicate FullMatch(s: string) {
    exists k :: 0 <= k <= |s| && (k == 0 || IsMetricName(s[..k])) && (k == |s| || IsLabelBlock(s[k..]))
  }

  /** The two groups of a successful match: the metric name (`''` when group 1 is absent) and the optional label block. */
  datatype VectorSelector = VectorSelector(name: string, labels: Option<string>)

  predicate WellFormed(v: VectorSelector) {
    (v.name == "" || IsMetricName(v.name)) && (v.labels.Some? ==> IsLabelBlock(v.labels.value))
  }

  /** The text a selector was parsed from. */
  function Text(v: VectorSelector): string {
    v.name + v.labels.GetOr("")
  }

  /** End of the run of name characters starting at `i`. */
  function NameEnd(s: string, i: nat): (k: nat)
    requires i <= |s|
    ensures i <= k <= |s|
    ensures forall j :: i <= j < k ==> IsNameChar(s[j])
    ensures k < |s| ==> !IsNameChar(s[k])
    decreases |s| - i
  {
    if i < |s| && IsNameChar(s[i]) then NameEnd(s, i + 1) else i
  }

  /**
   * Python's `fullmatch` of the selector pattern. Because `{` is not a name
   * character, the name group takes the longest run of name characters and the
   * rest must be empty or a label block.
   */
  function Parse(s: string): (r: Option<VectorSelector>)
    ensures r.Some? ==> WellFormed(r.value) && Text(r.value) == s
  {
    var k := if |s| > 0 && IsNameStart(s[0]) then NameEnd(s, 1) else 0;
    assert s == s[..k] + s[k..];
    if k == |s| then Some(VectorSelector(s, None))
    else if IsLabelBlock(s[k..]) then Some(VectorSelector(s[..k], Some(s[k..])))
    else None
  }

  /** Parsing the text of a well-formed selector gives that selector back: the split is unique. */
  lemma ParseText(v: VectorSelector)
    requires WellFormed(v)
    ensures Parse(Text(v)) == Some(v)
  {
    var s := Text(v);
    var n := |v.name|;
    assert s[..n] == v.name;
    assert s[n..] == v.labels.GetOr("");
    var k := if |s| > 0 && IsNameStart(s[0]) then NameEnd(s, 1) else 0;
    if n > 0 {
      assert forall j :: 1 <= j < n ==> IsNameChar(s[j]) by {
        forall j | 1 <= j < n ensures IsNameChar(s[j]) { assert s[j] == v.name[j]; }
      }
      assert n < |s| ==> s[n] == '{';
      assert k == n;
    } else {
      assert |s| > 0 ==> s[0] == '{';
      assert k == 0;
    }
  }

  /** The split found by `Parse` is one the regular expression accepts. */
  lemma ParseSound(s: string)
    requires Parse(s).Some?
    ensures FullMatch(s)
  {
    var v := Parse(s).value;
    var k := |v.name|;
    assert s[..k] == v.name && s[k..] == v.labels.GetOr("");
    assert (k == 0 || IsMetricName(s[..k])) && (k == |s| || IsLabelBlock(s[k..]));
  }

  /** Any split the regular expression accepts is found by `Parse`. */
  lemma ParseComplete(s: string)
    requires FullMatch(s)
    ensures Parse(s).Some?
  {
    var k :| 0 <= k <= |s| && (k == 0 || IsMetricName(s[..k])) && (k == |s| || IsLabelBlock(s[k..]));
    var v := VectorSelector(s[..k], if k == |s| then None else Some(s[k..]));
    assert Text(v) == s;
    ParseText(v);
  }

  /** `Parse` succeeds exactly on the texts the regular expression matches in full. */
  lemma ParseIsFullMatch(s: string)
    ensures Parse(s).Some? <==> FullMatch(s)
  {
    if Parse(s).Some? { ParseSound(s); }
    if FullMatch(s) { ParseComplete(s); }
  }

  /**
   * The text that replaces a matched argument: a label block other than `{}`
   * loses its closing brace and gets `,<clause>}`; otherwise `{<clause>}` follows the name.
   */
  function Rewrite(v: VectorSelector, clause: string): (r: string)
    ensures |r| >= |v.name| + |clause| + 2 && r[..|v.name|] == v.name
    ensures WellFormed(v) ==> r[|v.name|] == '{' && EndsWithClause(r[|v.name|..], clause)
  {
    match v.labels
    case Some(block) =>
      if block != "" && block != "{}" then v.name + block[..|block| - 1] + "," + clause + "}"
      else v.name + "{" + clause + "}"
    case None => v.name + "{" + clause + "}"
  }

  /** One iteration of the federation loop on one argument: its rewrite when it matches, the argument itself when it does not. */
  function RewriteArg(arg: string, clause: string): (r: string)
    ensures Parse(arg).None? ==> r == arg
    ensures Parse(arg).Some? ==>
      var name := Parse(arg).value.name;
      |r| > |name| && r[..|name|] == name && r[|name|] == '{' && EndsWithClause(r[|name|..], clause)
  {
    match Parse(arg)
    case Some(v) => Rewrite(v, clause)
    case None => arg
  }

  /** A matching argument with a non-empty label block keeps all but its last character and ends in `,<clause>}`. */
  lemma RewriteSplicesIntoBlock(arg: string, clause: string)
    requires Parse(arg).Some? && Parse(arg).value.labels.Some?
    requires Parse(arg).value.labels.value != "{}"
    ensures |arg| >= 2 && RewriteArg(arg, clause) == arg[..|arg| - 1] + "," + clause + "}"
  {
    var v := Parse(arg).value;
    var block := v.labels.value;
    assert arg == v.name + block && IsLabelBlock(block);
    assert RewriteArg(arg, clause) == Rewrite(v, clause);
    assert Rewrite(v, clause) == v.name + block[..|block| - 1] + "," + clause + "}";
    assert arg[..|arg| - 1] == v.name + block[..|block| - 1];
  }

  /** A matching argument without a label block, or with `{}`, becomes its name followed by `{<clause>}`. */
  lemma RewriteWrapsName(arg: string, clause: string)
    requires Parse(arg).Some?
    requires Parse(arg).value.labels.None? || Parse(arg).value.labels.value == "{}"
    ensures var name := Parse(arg).value.name;
      (name == "" || IsMetricName(name)) &&
      arg == name + Parse(arg).value.labels.GetOr("") &&
      RewriteArg(arg, clause) == name + "{" + clause + "}"
  {
  }

  /** The empty argument is a valid selector and becomes the bare block `{<clause>}`. */
  lemma EmptyArgGetsBareBlock(clause: string)
    ensures RewriteArg("", clause) == "{" + clause + "}"
  {
  }

  /** An argument that does not match the pattern is returned unchanged, so it carries no namespace matcher. */
  lemma InvalidArgUnchanged(arg: string, clause: string)
    requires !FullMatch(arg)
    ensures RewriteArg(arg, clause) == arg
  {
    ParseIsFullMatch(arg);
  }

  /** Two arguments that fail the match: one starts with a digit, one has text after its closing brace. */
  lemma InvalidExamples(clause: string)
    ensures !FullMatch("1up") && RewriteArg("1up", clause) == "1up"
    ensures !FullMatch("up{a=\"b\"}x") && RewriteArg("up{a=\"b\"}x", clause) == "up{a=\"b\"}x"
  {
    ParseIsFullMatch("1up");
    var s := "up{a=\"b\"}x";
    assert NameEnd(s, 1) == 2 by {
      assert NameEnd(s, 2) == 2;
    }
    ParseIsFullMatch(s);
  }

  /** `block` closes right after `clause`, which follows the opening `{` or a `,`: the clause is its last matcher. */
  predicate EndsWithClause(block: string, clause: string) {
    |block| >= |clause| + 2 &&
    block[|block| - |clause| - 1..] == clause + "}" &&
    block[|block| - |clause| - 2] in {'{', ','}
  }

  /** A block opener followed by the clause and a closing brace is a label block ending in that clause. */
  lemma ClosedWithClause(opener: string, clause: string)
    requires |opener| > 0 && opener[0] == '{' && opener[|opener| - 1] in {'{', ','}
    requires '\n' !in opener && '\n' !in clause
    ensures IsLabelBlock(opener + clause + "}") && EndsWithClause(opener + clause + "}", clause)
  {
    var block := opener + clause + "}";
    forall i | 0 <= i < |block| ensures block[i] != '\n' {
      if i < |opener| { assert block[i] == opener[i]; }
      else if i < |opener| + |clause| { assert block[i] == clause[i - |opener|]; }
    }
    assert block[|block| - |clause| - 1..] == clause + "}";
    assert block[|block| - |clause| - 2] == opener[|opener| - 1];
  }

  /** The part of the rewritten block that comes before the clause: the old block without its `}` plus `,`, or a bare `{`. */
  function Opener(v: VectorSelector): string {
    if v.labels.Some? && v.labels.value != "" && v.labels.value != "{}"
    then v.labels.value[..|v.labels.value| - 1] + ","
    else "{"
  }

  lemma RewriteByOpener(v: VectorSelector, clause: string)
    requires WellFormed(v)
    ensures Rewrite(v, clause) == v.name + (Opener(v) + clause + "}")
    ensures |Opener(v)| > 0 && Opener(v)[0] == '{' && Opener(v)[|Opener(v)| - 1] in {'{', ','}
    ensures '\n' !in Opener(v)
  {
    var opener := Opener(v);
    if |opener| > 1 {
      var given := v.labels.value;
      forall i | 0 <= i < |opener| ensures opener[i] != '\n' {
        if i < |given| - 1 { assert opener[i] == given[i]; }
      }
    }
  }

  /** `arg` is a selector whose label block has `clause` as its last matcher. */
  predicate ConfinedBy(arg: string, clause: string) {
    var r := Parse(arg);
    r.Some? && r.value.labels.Some? && EndsWithClause(r.value.labels.value, clause)
  }

  lemma ConfinedByText(name: string, opener: string, clause: string)
    requires name == "" || IsMetricName(name)
    requires |opener| > 0 && opener[0] == '{' && opener[|opener| - 1] in {'{', ','}
    requires '\n' !in opener && '\n' !in clause
    ensures ConfinedBy(name + (opener + clause + "}"), clause)
    ensures Parse(name + (opener + clause + "}")).value.name == name
  {
    var block := opener + clause + "}";
    var w := VectorSelector(name, Some(block));
    ClosedWithClause(opener, clause);
    assert Text(w) == name + block;
    ParseText(w);
  }

  /**
   * When the clause has no newline, the rewrite of a matching argument is again a
   * matching argument, with the same metric name, confined by the clause.
   */
  lemma RewriteIsSelector(arg: string, clause: string)
    requires Parse(arg).Some?
    requires '\n' !in clause
    ensures ConfinedBy(RewriteArg(arg, clause), clause)
    ensures Parse(RewriteArg(arg, clause)).value.name == Parse(arg).value.name
  {
    var v := Parse(arg).value;
    RewriteByOpener(v, clause);
    ConfinedByText(v.name, Opener(v), clause);
  }
}
