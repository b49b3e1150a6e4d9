/** The fragment renderers of `DB_Element`: the predicate list shared by
    where(), having() and set() (`strConstruct`), the tuple of in(), the
    lists of orderBy() and groupBy(), and the rows of values(). Each loop
    of the source is a method proved to return a closed form given here
    as a function. */
module Render {
  import opened Php
  import opened Strings
  import opened Patterns

  /** The text handed to quote(): passed through htmlspecialchars first
      when the secure option is on. */
  function Escaped(h: Host, secure: bool, s: string): string
  {
    if secure then h.escapeHtml(s) else s
  }

  // ---- strConstruct ----

  /** The operator in force after the first n values of params: that of
      the last of them that starts with one, if any. */
  function OperatorState(params: PhpArray, n: nat): (r: Option<string>)
    requires n <= |params|
    ensures r.Some? ==> 0 < |r.value| <= 2
  {
    if n == 0 then None
    else
      var m := MatchOperator(ToStr(params[n - 1].value));
      if m.Some? then m else OperatorState(params, n - 1)
  }

  /** A value after operator extraction: where it starts with an operator,
      every occurrence of that operator is removed (`str_replace`). */
  function Stripped(v: Value): (r: Value)
    ensures MatchOperator(ToStr(v)).Some? ==>
      r.Str? && |r.s| + |MatchOperator(ToStr(v)).value| <= |ToStr(v)|
    ensures MatchOperator(ToStr(v)).None? ==> r == v
  {
    match MatchOperator(ToStr(v))
    case Some(op) => Str(RemoveAll(ToStr(v), op))
    case None => v
  }

  /** One rendered predicate, given the operator state in force for it:
      `None` while no operator has been seen (operator `=`, value quoted),
      `Some(op)` once one has (operator op, value written raw). */
  function Condition(h: Host, secure: bool, e: Entry, state: Option<string>): (r: string)
    ensures KeyText(e.key) + (if state.Some? then state.value else "=") <= r
    ensures IsBlank(Stripped(e.value)) ==> r == KeyText(e.key) + (if state.Some? then state.value else "=") + " NULL"
  {
    var op := if state.Some? then state.value else "=";
    var w := Stripped(e.value);
    if IsBlank(w) then KeyText(e.key) + op + " NULL"
    else if state.None? then KeyText(e.key) + op + h.quote(Escaped(h, secure, ToStr(w)))
    else KeyText(e.key) + op + ToStr(w)
  }

  /** The predicates of params, each under the operator state that the
      values up to and including its own leave behind. */
  function Conditions(h: Host, secure: bool, params: PhpArray): (cs: seq<string>)
    ensures |cs| == |params|
  {
    seq(|params|, i requires 0 <= i < |params| =>
      Condition(h, secure, params[i], OperatorState(params, i + 1)))
  }

  /** What strConstruct returns: the predicates joined by " SEP ", followed
      by the one space that trimming the trailing "SEP " leaves. */
  function PredicateText(h: Host, params: PhpArray, secure: bool, sep: string): (r: string)
    ensures |params| == 0 ==> r == ""
    ensures |params| > 0 ==> |r| > 0 && r[|r| - 1] == ' '
  {
    if |params| == 0 then "" else Join(Conditions(h, secure, params), " " + sep + " ") + " "
  }

  /** Accumulating with " SEP " and trimming "SEP " leaves the join and a
      space. */
  lemma TrimSeparator(xs: seq<string>, sep: string)
    ensures TrimTrailing(Terminated(xs, " " + sep + " "), sep + " ") ==
      if |xs| == 0 then "" else Join(xs, " " + sep + " ") + " "
  {
    if |xs| > 0 {
      TerminatedIsJoined(xs, " " + sep + " ");
      assert Join(xs, " " + sep + " ") + (" " + sep + " ") == (Join(xs, " " + sep + " ") + " ") + (sep + " ");
      TrimAppended(Join(xs, " " + sep + " ") + " ", sep + " ");
    }
  }

  /** `DB_Element::strConstruct($params, $secure, $separator)`. The
      operator and the quoting flag live outside the loop, so an operator
      found on one value stays in force for the values after it. */
  method StrConstruct(h: Host, params: PhpArray, secure: bool, sep: string) returns (str: string)
    ensures str == PredicateText(h, params, secure, sep)
  {
    ghost var cs := Conditions(h, secure, params);
    var gap := " " + sep + " ";
    str := "";
    var operation := "=";
    var quote := true;
    var i := 0;
    while i < |params|
      invariant 0 <= i <= |params|
      invariant str == Terminated(cs[..i], gap)
      invariant quote == OperatorState(params, i).None?
      invariant operation == if quote then "=" else OperatorState(params, i).value
    {
      var key, value := params[i].key, params[i].value;
      operation, quote, value := TakeOperator(params, i, value, operation, quote);
      var piece := WritePredicate(h, secure, key, value, operation, quote, params[i], OperatorState(params, i + 1));
      assert piece == cs[i];
      TerminatedStep(cs, i, gap);
      str := str + piece + gap;
      i := i + 1;
    }
    assert cs[..i] == cs;
    TrimSeparator(cs, sep);
    str := TrimTrailing(str, sep + " ");
  }

  /** The operator in force is one of the six the pattern can select. */
  lemma {:induction false} OperatorStateReachable(params: PhpArray, n: nat)
    requires n <= |params|
    ensures OperatorState(params, n).Some? ==> OperatorState(params, n).value in Reachable
  {
    if n > 0 {
      MatchOperatorReachable(ToStr(params[n - 1].value));
      OperatorStateReachable(params, n - 1);
    }
  }

  /** The operator test of one strConstruct iteration: a value that starts
      with an operator sets the operator, switches quoting off and loses
      every occurrence of that operator. The loop's state then is the state
      the values up to this one leave. */
  method TakeOperator(ghost params: PhpArray, ghost i: nat, value: Value, operation: string, quote: bool)
    returns (operation': string, quote': bool, value': Value)
    requires i < |params| && value == params[i].value
    requires quote == OperatorState(params, i).None?
    requires operation == if quote then "=" else OperatorState(params, i).value
    ensures quote' == OperatorState(params, i + 1).None?
    ensures operation' == if quote' then "=" else OperatorState(params, i + 1).value
    ensures value' == Stripped(value)
  {
    operation', quote', value' := operation, quote, value;
    var m := MatchOperator(ToStr(value));
    if m.Some? {
      operation' := m.value;
      quote' := false;
      value' := Str(RemoveAll(ToStr(value), operation'));
    }
  }

  /** The body of one strConstruct iteration after the operator test: the
      key, the operator and NULL, the quoted value or the raw value. Given
      the state the loop keeps, it writes the condition of e. */
  method WritePredicate(h: Host, secure: bool, key: Key, value: Value, operation: string, quote: bool,
                        ghost e: Entry, ghost state: Option<string>) returns (piece: string)
    requires key == e.key && value == Stripped(e.value)
    requires quote == state.None? && operation == if quote then "=" else state.value
    ensures piece == Condition(h, secure, e, state)
  {
    if IsBlank(value) {
      piece := KeyText(key) + operation + " NULL";
    } else if quote {
      piece := KeyText(key) + operation + h.quote(Escaped(h, secure, ToStr(value)));
    } else {
      piece := KeyText(key) + operation + ToStr(value);
    }
  }

  /** Predicate i is rendered under its own operator if it has one, and
      under the state the values before it leave otherwise; that operator
      is the state it leaves for the next value. */
  lemma ConditionsAt(h: Host, secure: bool, params: PhpArray, i: nat)
    requires i < |params|
    ensures Conditions(h, secure, params)[i] ==
      Condition(h, secure, params[i],
        if MatchOperator(ToStr(params[i].value)).Some? then MatchOperator(ToStr(params[i].value))
        else OperatorState(params, i))
    ensures OperatorState(params, i + 1) ==
      if MatchOperator(ToStr(params[i].value)).Some? then MatchOperator(ToStr(params[i].value))
      else OperatorState(params, i)
  {
  }

  /** A single pair renders as its predicate followed by the space the
      trim leaves; its own operator, if any, is the one in force. */
  lemma OnePredicate(h: Host, params: PhpArray, secure: bool, sep: string)
    requires |params| == 1
    ensures PredicateText(h, params, secure, sep) ==
      Condition(h, secure, params[0], MatchOperator(ToStr(params[0].value))) + " "
  {
    ConditionsAt(h, secure, params, 0);
  }

  /** An operator stays in force: when value j starts with operator op and
      none of the values after it up to value i starts with one, value i is
      written with op and unquoted. */
  lemma {:induction false} OperatorCarries(params: PhpArray, j: nat, i: nat, op: string)
    requires j <= i < |params|
    requires MatchOperator(ToStr(params[j].value)) == Some(op)
    requires forall m :: j < m <= i ==> MatchOperator(ToStr(params[m].value)).None?
    ensures OperatorState(params, i + 1) == Some(op)
  {
    if i > j {
      OperatorCarries(params, j, i - 1, op);
    }
  }

  /** Until a value starts with an operator, every value is quoted and
      compared with `=`. */
  lemma {:induction false} NoOperatorYet(params: PhpArray, i: nat)
    requires i <= |params|
    requires forall m :: 0 <= m < i ==> MatchOperator(ToStr(params[m].value)).None?
    ensures OperatorState(params, i) == None
  {
    if i > 0 {
      NoOperatorYet(params, i - 1);
    }
  }

  /** The NULL rule for a value without an operator: exactly null, false
      and the empty string are written as NULL; 0 and "0" are written as
      quoted literals. */
  lemma NullRule(h: Host, secure: bool, e: Entry)
    requires MatchOperator(ToStr(e.value)).None?
    ensures e.value in {Null, Bool(false), Str("")} ==>
      Condition(h, secure, e, None) == KeyText(e.key) + "= NULL"
    ensures e.value !in {Null, Bool(false), Str("")} ==>
      Condition(h, secure, e, None) == KeyText(e.key) + "=" + h.quote(Escaped(h, secure, ToStr(e.value)))
  {
  }

  /** Under an operator, a value that is not blank once stripped is
      written raw after the operator. */
  lemma OperatorRule(h: Host, secure: bool, e: Entry, op: string)
    requires MatchOperator(ToStr(e.value)) == Some(op)
    requires RemoveAll(ToStr(e.value), op) != ""
    ensures Condition(h, secure, e, Some(op)) == KeyText(e.key) + op + RemoveAll(ToStr(e.value), op)
  {
  }

  /** A one-character operator is removed from the value entirely. */
  lemma OperatorRemoved(s: string)
    requires MatchOperator(s).Some? && |MatchOperator(s).value| == 1
    ensures MatchOperator(s).value[0] !in RemoveAll(s, MatchOperator(s).value)
  {
    var op := MatchOperator(s).value;
    assert op == [op[0]];
    RemoveAllChar(s, op[0]);
  }

  // ---- in(), between(), like(), regexp() ----

  /** A value written between literal double quotes (quote() is not used). */
  function DoubleQuoted(v: Value): string
  {
    "\"" + ToStr(v) + "\""
  }

  /** The items of in(), one per position 0 .. count - 1. */
  function InItems(params: PhpArray): (xs: seq<string>)
    ensures |xs| == |params|
  {
    seq(|params|, i requires 0 <= i < |params| => DoubleQuoted(Positional(params)[i]))
  }

  /** The fragment in() stores: `("v1", "v2", ...)`. */
  function InTuple(params: PhpArray): string
  {
    "(" + Join(InItems(params), ", ") + ")"
  }

  /** The loop of `DB_Element::in`. */
  method RenderIn(params: PhpArray) returns (str: string)
    ensures str == InTuple(params)
  {
    ghost var xs := InItems(params);
    str := "";
    var i := 0;
    while i < |params|
      invariant 0 <= i <= |params|
      invariant str == Terminated(xs[..i], ", ")
    {
      var item := "\"" + ToStr(Lookup(params, KInt(i))) + "\"";
      TerminatedStep(xs, i, ", ");
      str := str + item + ", ";
      i := i + 1;
    }
    assert xs[..i] == xs;
    TrimTerminated(xs, ", ");
    str := "(" + TrimTrailing(str, ", ") + ")";
  }

  /** The tuple of in() is one group: its inside is what the merge rule of
      IN extracts, provided no value holds `)` or a newline. */
  lemma InTupleGroup(params: PhpArray)
    requires forall i :: 0 <= i < |params| ==> ')' !in ToStr(Positional(params)[i]) && '\n' !in ToStr(Positional(params)[i])
    ensures FirstGroup(InTuple(params)) == Some(Join(InItems(params), ", "))
  {
    var xs := InItems(params);
    JoinAvoids(xs, ", ", ')');
    JoinAvoids(xs, ", ", '\n');
    TupleGroup(Join(xs, ", "));
  }

  /** The fragment of between(): `"lo" AND "hi"`. */
  function BetweenText(lo: Value, hi: Value): string
  {
    DoubleQuoted(lo) + " AND " + DoubleQuoted(hi)
  }

  // ---- orderBy() ----

  /** The argument of orderBy(): an array of column => direction, or a
      column with an optional direction. */
  datatype OrderArg = OrderPairs(pairs: PhpArray) | OrderColumn(column: string, option: Option<string>)

  function OrderItems(p: PhpArray): (xs: seq<string>)
    ensures |xs| == |p|
  {
    seq(|p|, i requires 0 <= i < |p| => KeyText(p[i].key) + " " + ToStr(p[i].value))
  }

  /** The fragment orderBy() stores. */
  function Ordering(arg: OrderArg): string
  {
    match arg
    case OrderPairs(p) => Join(OrderItems(p), ", ")
    case OrderColumn(col, option) => col + (if option.Some? then " " + option.value else "")
  }

  /** The loop of `DB_Element::orderBy`. */
  method RenderOrderBy(arg: OrderArg) returns (str: string)
    ensures str == Ordering(arg)
  {
    str := "";
    match arg {
      case OrderPairs(p) =>
        ghost var xs := OrderItems(p);
        var i := 0;
        while i < |p|
          invariant 0 <= i <= |p|
          invariant str == Terminated(xs[..i], ", ")
        {
          var item := KeyText(p[i].key) + " " + ToStr(p[i].value);
          TerminatedStep(xs, i, ", ");
          str := str + item + ", ";
          i := i + 1;
        }
        assert xs[..i] == xs;
        TrimTerminated(xs, ", ");
        str := TrimTrailing(str, ", ");
      case OrderColumn(col, option) =>
        str := col + (if option.Some? then " " + option.value else "");
    }
  }

  // ---- groupBy() ----

  /** The argument of groupBy(): an array of columns, or a column list
      already written out. */
  datatype GroupArg = GroupColumns(columns: PhpArray) | GroupText(text: string)

  function GroupItems(cols: PhpArray): (xs: seq<string>)
    ensures |xs| == |cols|
  {
    seq(|cols|, i requires 0 <= i < |cols| => ToStr(Positional(cols)[i]))
  }

  /** The fragment groupBy() stores. */
  function Grouping(arg: GroupArg): string
  {
    match arg
    case GroupColumns(cols) => Join(GroupItems(cols), ", ")
    case GroupText(t) => t
  }

  /** The loop of `DB_Element::groupBy`. */
  method RenderGroupBy(arg: GroupArg) returns (str: string)
    ensures str == Grouping(arg)
  {
    match arg {
      case GroupText(t) =>
        str := t;
      case GroupColumns(cols) =>
        ghost var xs := GroupItems(cols);
        str := "";
        var i := 0;
        while i < |cols|
          invariant 0 <= i <= |cols|
          invariant str == Terminated(xs[..i], ", ")
        {
          TerminatedStep(xs, i, ", ");
          str := str + ToStr(Lookup(cols, KInt(i))) + ", ";
          i := i + 1;
        }
        assert xs[..i] == xs;
        TrimTerminated(xs, ", ");
        str := TrimTrailing(str, ", ");
    }
  }

  // ---- values() ----

  /** A value of a later positional row: empty values other than 0 and "0"
      are written as NULL. */
  function ListCell(h: Host, secure: bool, v: Value): (r: string)
    ensures v == Bool(false) || v == Str("") ==> r == "NULL"
  {
    if IsBlank(v) then "NULL" else h.quote(Escaped(h, secure, ToStr(v)))
  }

  /** A value of a keyed row: only null is written as NULL. */
  function PairCell(h: Host, secure: bool, v: Value): (r: string)
    ensures v == Bool(false) || v == Str("") ==> r == h.quote(Escaped(h, secure, ""))
  {
    if v == Null then "NULL" else h.quote(Escaped(h, secure, ToStr(v)))
  }

  /** The two emptiness tests differ: a later positional row writes the
      empty string and false as NULL, a keyed row quotes them; both quote 0. */
  lemma CellTests(h: Host, secure: bool)
    ensures ListCell(h, secure, Str("")) == "NULL" && ListCell(h, secure, Bool(false)) == "NULL"
    ensures PairCell(h, secure, Str("")) == h.quote(Escaped(h, secure, ""))
    ensures PairCell(h, secure, Bool(false)) == h.quote(Escaped(h, secure, ""))
    ensures ListCell(h, secure, Null) == "NULL" && PairCell(h, secure, Null) == "NULL"
    ensures ListCell(h, secure, Int(0)) == PairCell(h, secure, Int(0)) == h.quote(Escaped(h, secure, IntText(0)))
  {
  }

  function ListCells(h: Host, secure: bool, a: PhpArray): (xs: seq<string>)
    ensures |xs| == |a|
  {
    seq(|a|, i requires 0 <= i < |a| => ListCell(h, secure, Positional(a)[i]))
  }

  function PairCells(h: Host, secure: bool, a: PhpArray): (xs: seq<string>)
    ensures |xs| == |a|
  {
    seq(|a|, i requires 0 <= i < |a| => PairCell(h, secure, a[i].value))
  }

  function ColumnNames(a: PhpArray): (xs: seq<string>)
    ensures |xs| == |a|
  {
    seq(|a|, i requires 0 <= i < |a| => "`" + KeyText(a[i].key) + "`")
  }

  /** A tuple: the items between parentheses, separated by ", ". */
  function Tuple(xs: seq<string>): string
  {
    "(" + Join(xs, ", ") + ")"
  }

  /** The counted loop of values() over a positional row (db.class.php
      620-628), with the wrapping of line 647. */
  method RenderListRow(h: Host, a: PhpArray, secure: bool) returns (row: string)
    ensures row == Tuple(ListCells(h, secure, a))
  {
    ghost var xs := ListCells(h, secure, a);
    var str := "";
    var i := 0;
    while i < |a|
      invariant 0 <= i <= |a|
      invariant str == Terminated(xs[..i], ", ")
    {
      var v := Lookup(a, KInt(i));
      var cell;
      if IsBlank(v) {
        cell := "NULL";
      } else {
        cell := h.quote(Escaped(h, secure, ToStr(v)));
      }
      TerminatedStep(xs, i, ", ");
      str := str + cell + ", ";
      i := i + 1;
    }
    assert xs[..i] == xs;
    TrimTerminated(xs, ", ");
    row := "(" + TrimTrailing(str, ", ") + ")";
  }

  /** The foreach loop of values() over a keyed row (db.class.php 636-646),
      with the wrapping of lines 645 and 647: the column tuple and the value
      tuple. */
  method RenderPairRow(h: Host, a: PhpArray, secure: bool) returns (columns: string, row: string)
    ensures columns == Tuple(ColumnNames(a))
    ensures row == Tuple(PairCells(h, secure, a))
  {
    ghost var ks := ColumnNames(a);
    ghost var xs := PairCells(h, secure, a);
    var strKey, strValue := "", "";
    var i := 0;
    while i < |a|
      invariant 0 <= i <= |a|
      invariant strKey == Terminated(ks[..i], ", ")
      invariant strValue == Terminated(xs[..i], ", ")
    {
      var key, value := a[i].key, a[i].value;
      var name := "`" + KeyText(key) + "`";
      var cell;
      if value == Null {
        cell := "NULL";
      } else {
        cell := h.quote(Escaped(h, secure, ToStr(value)));
      }
      TerminatedStep(ks, i, ", ");
      TerminatedStep(xs, i, ", ");
      strKey := strKey + name + ", ";
      strValue := strValue + cell + ", ";
      i := i + 1;
    }
    assert ks[..i] == ks && xs[..i] == xs;
    TrimTerminated(ks, ", ");
    TrimTerminated(xs, ", ");
    columns := "(" + TrimTrailing(strKey, ", ") + ")";
    row := "(" + TrimTrailing(strValue, ", ") + ")";
  }

  /** A tuple whose items hold no `)` and no newline is one group, and its
      inside is the join of the items: what the merge rule of COLUMN and
      VALUES extracts. */
  lemma TupleInside(xs: seq<string>)
    requires forall i :: 0 <= i < |xs| ==> ')' !in xs[i] && '\n' !in xs[i]
    ensures FirstGroup(Tuple(xs)) == Some(Join(xs, ", "))
  {
    JoinAvoids(xs, ", ", ')');
    JoinAvoids(xs, ", ", '\n');
    TupleGroup(Join(xs, ", "));
  }
}
