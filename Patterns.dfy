/** The two regular expressions of the assembler that are not trims,
    written as string functions with the same effect under PCRE's rules:
    the comparison-operator prefix `^(=|!=|<|>|>=|<=|<>|!<|!>)` and the
    first parenthesised group `\((.*?)\)`. */
module Patterns {
  import opened Php

  /** The alternatives of the operator pattern, in the order PCRE tries them. */
  const Operators: seq<string> := ["=", "!=", "<", ">", ">=", "<=", "<>", "!<", "!>"]

  /** The operators a value can select: the alternatives that are not
      shadowed by an earlier, shorter one. */
  const Reachable: set<string> := {"=", "!=", "<", ">", "!<", "!>"}

  /** The first alternative that is a prefix of s: an ordered alternation
      anchored at the start. */
  function FirstPrefix(alts: seq<string>, s: string): (r: Option<string>)
    ensures r.Some? ==> r.value in alts && r.value <= s
  {
    if |alts| == 0 then None
    else if alts[0] <= s then Some(alts[0])
    else FirstPrefix(alts[1..], s)
  }

  /** preg_match('#^(=|!=|<|>|>=|<=|<>|!<|!>)#', s, m) and m[1], by the
      first character (and, after a `!`, the second): `>=`, `<=` and `<>`
      are never the match, because `<` or `>` is tried before them.
      MatchOperatorIsAlternation shows this is the ordered alternation. */
  function MatchOperator(s: string): (r: Option<string>)
    ensures r.Some? ==> 0 < |r.value| <= 2 && r.value <= s
  {
    if |s| == 0 then None
    else if s[0] == '=' then Some("=")
    else if s[0] == '<' then Some("<")
    else if s[0] == '>' then Some(">")
    else if s[0] == '!' && |s| >= 2 && s[1] == '=' then Some("!=")
    else if s[0] == '!' && |s| >= 2 && s[1] == '<' then Some("!<")
    else if s[0] == '!' && |s| >= 2 && s[1] == '>' then Some("!>")
    else None
  }

  /** Only the six unshadowed alternatives are ever selected. */
  lemma MatchOperatorReachable(s: string)
    ensures MatchOperator(s).Some? ==> MatchOperator(s).value in Reachable
  {
  }

  /** The first-character rule is PCRE's ordered alternation over the nine
      operators, anchored at the start of the value. */
  lemma MatchOperatorIsAlternation(s: string)
    ensures MatchOperator(s) == FirstPrefix(Operators, s)
  {
    var t := Operators;
    PrefixOne("=", s);
    PrefixOne("<", s);
    PrefixOne(">", s);
    PrefixTwo("!=", s);
    if |s| == 0 || (s[0] != '<' && s[0] != '>') {
      ShadowedAlternatives(s);
      PrefixTwo("!<", s);
      PrefixTwo("!>", s);
    }
    assert t[3..] == [">"] + t[4..];
    assert FirstPrefix(t[3..], s) == if ">" <= s then Some(">") else FirstPrefix(t[4..], s);
    assert t[2..] == ["<"] + t[3..];
    assert FirstPrefix(t[2..], s) == if "<" <= s then Some("<") else FirstPrefix(t[3..], s);
    assert t[1..] == ["!="] + t[2..];
    assert FirstPrefix(t[1..], s) == if "!=" <= s then Some("!=") else FirstPrefix(t[2..], s);
    assert FirstPrefix(t, s) == if "=" <= s then Some("=") else FirstPrefix(t[1..], s);
  }

  /** Past `>`, the alternation can only select `!<` or `!>` for a value
      that does not start with `<` or `>`. */
  lemma ShadowedAlternatives(s: string)
    requires |s| == 0 || (s[0] != '<' && s[0] != '>')
    ensures FirstPrefix(Operators[4..], s) ==
      if "!<" <= s then Some("!<") else if "!>" <= s then Some("!>") else None
  {
    var t := Operators;
    PrefixTwo(">=", s);
    PrefixTwo("<=", s);
    PrefixTwo("<>", s);
    assert t[8..] == ["!>"];
    assert FirstPrefix(t[8..], s) == if "!>" <= s then Some("!>") else None;
    assert t[7..] == ["!<", "!>"];
    assert FirstPrefix(t[7..], s) == if "!<" <= s then Some("!<") else FirstPrefix(t[8..], s);
    assert t[6..] == ["<>", "!<", "!>"];
    assert FirstPrefix(t[6..], s) == FirstPrefix(t[7..], s);
    assert t[5..] == ["<=", "<>", "!<", "!>"];
    assert FirstPrefix(t[5..], s) == FirstPrefix(t[6..], s);
    assert t[4..] == [">=", "<=", "<>", "!<", "!>"];
    assert FirstPrefix(t[4..], s) == FirstPrefix(t[5..], s);
  }

  lemma PrefixOne(p: string, s: string)
    requires |p| == 1
    ensures p <= s <==> |s| >= 1 && s[0] == p[0]
  {
    if |s| >= 1 && s[0] == p[0] {
      assert s[..1] == p;
    }
  }

  lemma PrefixTwo(p: string, s: string)
    requires |p| == 2
    ensures p <= s <==> |s| >= 2 && s[0] == p[0] && s[1] == p[1]
  {
    if |s| >= 2 && s[0] == p[0] && s[1] == p[1] {
      assert s[..2] == p;
    }
  }

  /** An integer's string form never starts with an operator. */
  lemma IntHasNoOperator(i: int)
    ensures MatchOperator(IntText(i)) == None
  {
  }

  /** The index of the first `)` at or after i, unless a newline comes
      first (`.` does not match a newline). */
  function CloseFrom(s: string, i: nat): (r: Option<nat>)
    ensures r.Some? ==> i <= r.value < |s| && s[r.value] == ')'
    ensures r.Some? ==> forall j :: i <= j < r.value ==> s[j] != ')' && s[j] != '\n'
    decreases |s| - i
  {
    if i >= |s| then None
    else if s[i] == ')' then Some(i)
    else if s[i] == '\n' then None
    else CloseFrom(s, i + 1)
  }

  /** The text of the leftmost match of `\((.*?)\)` from position p on. */
  function GroupFrom(s: string, p: nat): (r: Option<string>)
    ensures r.Some? ==> ')' !in r.value && '\n' !in r.value
    decreases |s| - p
  {
    if p >= |s| then None
    else if s[p] == '(' && CloseFrom(s, p + 1).Some? then Some(s[p + 1..CloseFrom(s, p + 1).value])
    else GroupFrom(s, p + 1)
  }

  /** preg_match('#\((.*?)\)#', s, m) and m[1]: the text between the first
      `(` that has a closing `)` after it on the same line and that `)`. */
  function FirstGroup(s: string): (r: Option<string>)
    ensures r.Some? ==> ')' !in r.value && '\n' !in r.value
  {
    GroupFrom(s, 0)
  }

  lemma {:induction false} CloseFromScan(s: string, i: nat, q: nat)
    requires i <= q < |s| && s[q] == ')'
    requires forall j :: i <= j < q ==> s[j] != ')' && s[j] != '\n'
    ensures CloseFrom(s, i) == Some(q)
    decreases q - i
  {
    if i < q {
      CloseFromScan(s, i + 1, q);
    }
  }

  /** A tuple `(x)` whose inside holds no `)` and no newline has x as its
      first group. */
  lemma TupleGroup(x: string)
    requires ')' !in x && '\n' !in x
    ensures FirstGroup("(" + x + ")") == Some(x)
  {
    var s := "(" + x + ")";
    CloseFromScan(s, 1, |x| + 1);
    assert s[1..|x| + 1] == x;
  }

  lemma {:induction false} NoOpenNoGroup(s: string, p: nat)
    requires forall j :: p <= j < |s| ==> s[j] != '('
    ensures GroupFrom(s, p) == None
    decreases |s| - p
  {
    if p < |s| {
      NoOpenNoGroup(s, p + 1);
    }
  }

  /** A string without `(` has no group; in particular the empty string. */
  lemma NoOpenParen(s: string)
    requires '(' !in s
    ensures FirstGroup(s) == None
  {
    NoOpenNoGroup(s, 0);
  }
}
