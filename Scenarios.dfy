/** Whole statements built through the builder, and single predicates
    rendered by strConstruct: the behaviour the class documentation of
    `DB_Element` describes, and the quirks of the code as written. */
module Scenarios {
  import opened Php
  import opened Strings
  import opened Patterns
  import opened ClauseChain
  import opened Options
  import opened Render
  import opened Query

  // ---- single predicates ----

  // The expected texts are written piece by piece (key, operator, value,
  // trailing space) as the renderer concatenates them.

  /** An empty string is written as NULL. */
  lemma NullSubstitution(h: Host)
    ensures PredicateText(h, [Entry(KStr("a"), Str(""))], false, "AND") == "a" + "= NULL" + " "
  {
    var e := Entry(KStr("a"), Str(""));
    OnePredicate(h, [e], false, "AND");
    NullRule(h, false, e);
  }

  /** 0 is not blank: it is written as a quoted literal. */
  lemma ZeroIsQuoted(h: Host)
    ensures PredicateText(h, [Entry(KStr("a"), Int(0))], false, "AND") == "a" + "=" + h.quote("0") + " "
  {
    var e := Entry(KStr("a"), Int(0));
    OnePredicate(h, [e], false, "AND");
    IntHasNoOperator(0);
    assert ToStr(e.value) == "0";
    NullRule(h, false, e);
  }

  /** A leading comparison operator replaces `=` and switches quoting off. */
  lemma OperatorExtraction(h: Host)
    ensures PredicateText(h, [Entry(KStr("age"), Str("<50"))], false, "AND") == "age" + "<" + "50" + " "
  {
    var e := Entry(KStr("age"), Str("<50"));
    OnePredicate(h, [e], false, "AND");
    assert RemoveAll("<50", "<") == "50" by {
      RemoveAllAbsent("50", '<');
      assert "<50"[..1] == "<" && "<50"[1..] == "50";
    }
    OperatorRule(h, false, e, "<");
  }

  /** With the secure option a plain value is escaped before it is quoted. */
  lemma SecureEscapes(h: Host)
    ensures PredicateText(h, [Entry(KStr("name"), Str("b&c"))], true, "AND") ==
      "name" + "=" + h.quote(h.escapeHtml("b&c")) + " "
  {
    var e := Entry(KStr("name"), Str("b&c"));
    OnePredicate(h, [e], true, "AND");
    NullRule(h, true, e);
  }

  /** A value that starts with `<` is taken for an operator, so the secure
      option does not escape it: it is written raw, without quotes. */
  lemma SecureMissesMarkup(h: Host)
    ensures PredicateText(h, [Entry(KStr("name"), Str("<b>"))], true, "AND") == "name" + "<" + "b>" + " "
  {
    var e := Entry(KStr("name"), Str("<b>"));
    OnePredicate(h, [e], true, "AND");
    assert RemoveAll("<b>", "<") == "b>" by {
      RemoveAllAbsent("b>", '<');
      assert "<b>"[..1] == "<" && "<b>"[1..] == "b>";
    }
    OperatorRule(h, true, e, "<");
  }

  // ---- whole statements ----

  /** An integer value under a plain key is quoted with `=`. */
  lemma IntPredicate(h: Host, k: string, n: int, sep: string)
    ensures PredicateText(h, [Entry(KStr(k), Int(n))], false, sep) == k + "=" + h.quote(IntText(n)) + " "
  {
    var e := Entry(KStr(k), Int(n));
    OnePredicate(h, [e], false, sep);
    IntHasNoOperator(n);
    NullRule(h, false, e);
  }

  /** Stepping stone for the scenarios below: the decimal forms of the
      integers they use. */
  lemma Digits()
    ensures IntText(1) == "1" && IntText(2) == "2"
  {
  }

  /** A chain of one entry renders as that entry's piece. */
  lemma OneSlotTail(c: Chain, k: SlotKey)
    requires IsSlot(k) && c.Keys == {k}
    ensures Tail(c) == Piece(k, c[k])
  {
    TailInOrder(c, [k]);
  }

  const Everything: PhpArray := [Entry(KStr("fields"), Str("*"))]

  /** Stepping stone for the SELECT scenarios: the head of `SELECT *` on
      table t. */
  lemma SelectHead()
    ensures Head("t", "SELECT", Everything) == "SELECT * FROM t"
  {
  }

  /** Stepping stone for WhereTail and OneWhereTail: the WHERE entry as
      sqlConstruct writes it. */
  lemma WherePiece(v: string)
    ensures Piece(WhereSlot, v) == " WHERE " + v
  {
  }

  /** Two ANDed conditions in the WHERE slot render as one WHERE clause. */
  lemma WhereTail(c: Chain, w1: string, w2: string)
    requires c == map[WhereSlot := w1 + " AND " + w2]
    ensures Tail(c) == " WHERE " + (w1 + " AND " + w2)
  {
    OneSlotTail(c, WhereSlot);
    WherePiece(w1 + " AND " + w2);
  }

  /** The chain of two where() calls without options. */
  lemma TwoWheres(h: Host, p1: PhpArray, p2: PhpArray)
    ensures Insert(Insert(map[], "WHERE", WhereText(h, Pairs(p1), Absent)), "WHERE", WhereText(h, Pairs(p2), Absent)) ==
      map[WhereSlot := PredicateText(h, p1, false, "AND") + " AND " + PredicateText(h, p2, false, "AND")]
  {
    PlainSlot("WHERE");
  }

  /** Two where() calls AND their predicate lists; each list keeps the
      space its trim leaves, so two spaces come before AND. */
  method WhereAccumulates(h: Host) returns (s: string)
    ensures s == "SELECT * FROM t" + (" WHERE " + (("a" + "=" + h.quote("1") + " ") + " AND " + ("b" + "=" + h.quote("2") + " ")))
  {
    var p1 := [Entry(KStr("a"), Int(1))];
    var p2 := [Entry(KStr("b"), Int(2))];
    SelectHead();
    var q := new Element.Statement(h, "t", "SELECT", Everything);
    var e1 := q.Where(Pairs(p1), Absent);
    var e2 := e1.Where(Pairs(p2), Absent);
    s := e2.Sql();
    TwoWheres(h, p1, p2);
    Digits();
    IntPredicate(h, "a", 1, "AND");
    IntPredicate(h, "b", 2, "AND");
    WhereTail(e2.chain, PredicateText(h, p1, false, "AND"), PredicateText(h, p2, false, "AND"));
  }

  /** One condition in the WHERE slot renders as a WHERE clause. */
  lemma OneWhereTail(c: Chain, w: string)
    requires c == map[WhereSlot := w]
    ensures Tail(c) == " WHERE " + w
  {
    OneSlotTail(c, WhereSlot);
    WherePiece(w);
  }

  /** A second condition is ANDed onto the first. */
  lemma WhereOnWhere(c: Chain, w1: string, w2: string)
    requires c == map[WhereSlot := w1]
    ensures Insert(c, "WHERE", w2) == map[WhereSlot := w1 + " AND " + w2]
  {
    PlainSlot("WHERE");
  }

  /** element() copies the chain, but the operation that returned it has
      already written into its receiver: a second branch taken from the
      same builder carries the first branch's condition too. */
  method ForkSharesState(h: Host) returns (s1: string, s2: string)
    ensures s1 == "SELECT * FROM t" + (" WHERE " + "a=1")
    ensures s2 == "SELECT * FROM t" + (" WHERE " + ("a=1" + " AND " + "b=2"))
  {
    SelectHead();
    PlainSlot("WHERE");
    var q := new Element.Statement(h, "t", "SELECT", Everything);
    var x := q.Where(Raw("a=1"), Absent);
    OneWhereTail(x.chain, "a=1");
    WhereOnWhere(q.chain, "a=1", "b=2");
    var y := q.Where(Raw("b=2"), Absent);
    WhereTail(y.chain, "a=1", "b=2");
    s1 := x.Sql();
    s2 := y.Sql();
  }

  /** sql() appends the rendered chain to the head it keeps, so a second
      call renders the clauses twice. */
  method SqlTwice(h: Host) returns (s1: string, s2: string)
    ensures s1 == "SELECT * FROM t" + (" WHERE " + "a=1")
    ensures s2 == s1 + (" WHERE " + "a=1")
  {
    SelectHead();
    PlainSlot("WHERE");
    var q := new Element.Statement(h, "t", "SELECT", Everything);
    var x := q.Where(Raw("a=1"), Absent);
    OneWhereTail(x.chain, "a=1");
    s1 := x.Sql();
    s2 := x.Sql();
  }

  /** Two pairs render as two predicates around the separator; the second
      is rendered under the operator state the first two values leave. */
  lemma TwoPredicates(h: Host, p: PhpArray, secure: bool, sep: string)
    requires |p| == 2
    ensures PredicateText(h, p, secure, sep) ==
      Condition(h, secure, p[0], OperatorState(p, 1)) + (" " + sep + " ") +
      Condition(h, secure, p[1], OperatorState(p, 2)) + " "
  {
    var cs := Conditions(h, secure, p);
    assert cs[0] == Condition(h, secure, p[0], OperatorState(p, 1));
    assert cs[1] == Condition(h, secure, p[1], OperatorState(p, 2));
    assert cs[..1] == [cs[0]];
    assert Join(cs, " " + sep + " ") == cs[0] + (" " + sep + " ") + cs[1];
  }

  /** An operator found on one value stays in force for the value after
      it: an integer that follows a value such as "<5" is compared with the
      same operator, and written raw rather than quoted. */
  lemma OperatorCarriesOver(h: Host, secure: bool, sep: string, k0: Key, x: string, op: string, k1: Key, n: int)
    requires MatchOperator(x) == Some(op) && RemoveAll(x, op) != ""
    ensures PredicateText(h, [Entry(k0, Str(x)), Entry(k1, Int(n))], secure, sep) ==
      (KeyText(k0) + op + RemoveAll(x, op)) + (" " + sep + " ") + (KeyText(k1) + op + IntText(n)) + " "
  {
    var e0, e1 := Entry(k0, Str(x)), Entry(k1, Int(n));
    var p := [e0, e1];
    TwoPredicates(h, p, secure, sep);
    IntHasNoOperator(n);
    OperatorCarries(p, 0, 1, op);
    assert OperatorState(p, 1) == Some(op);
    OperatorRule(h, secure, e0, op);
  }

  // ---- values() ----

  /** Stepping stone for RowsAppend and RowsMerge: the head of an INSERT
      into table t. */
  lemma InsertHead()
    ensures Head("t", "INSERT", []) == "INSERT INTO t"
  {
  }

  /** values() without options: no escaping, no merge; with the flag
      "merge": no escaping, merge. */
  lemma ValuesOptions()
    ensures !SecureOption(ValuesDefaults, Absent)
    ensures !Truthy(OptionValue(ValuesDefaults, Absent, KStr("merge")))
    ensures !SecureOption(ValuesDefaults, Flag("merge"))
    ensures Truthy(OptionValue(ValuesDefaults, Flag("merge"), KStr("merge")))
  {
  }

  /** The first row `name => n` writes a one-column tuple and a one-value
      tuple. */
  lemma FirstRowChain(h: Host, c: Chain, name: string, n: int, merge: bool)
    requires c == map[]
    ensures ValuesChain(h, c, [Entry(KStr(name), Int(n))], false, merge) ==
      map[ColumnSlot := "(" + ("`" + name + "`") + ")", ValuesSlot := "(" + h.quote(IntText(n)) + ")"]
  {
    var a := [Entry(KStr(name), Int(n))];
    ValuesFirstRow(h, c, a, false, merge);
    assert ColumnNames(a) == ["`" + name + "`"];
    assert PairCells(h, false, a) == [h.quote(IntText(n))];
    var r := ValuesChain(h, c, a, false, merge);
    assert r.Keys == {ColumnSlot, ValuesSlot};
  }

  /** A later positional row `[n]` without merge is appended, after a
      comma, to the extra rows. */
  lemma AppendRowChain(h: Host, c: Chain, n: int)
    requires WellFormed(c) && ValuesSlot in c && MultiSlot !in c
    ensures ValuesChain(h, c, [Entry(KInt(0), Int(n))], false, false) ==
      c[MultiSlot := "," + ("(" + h.quote(IntText(n)) + ")")]
  {
    var a := [Entry(KInt(0), Int(n))];
    assert IsList(a);
    ValuesAppendRow(h, c, a, false);
    assert Positional(a)[0] == Int(n);
    assert ListCells(h, false, a) == [h.quote(IntText(n))];
    var r := ValuesChain(h, c, a, false, false);
    assert r[MultiSlot] == "," + ("(" + h.quote(IntText(n)) + ")");
    assert r.Keys == c[MultiSlot := ""].Keys;
  }

  /** Stepping stone for RowsTail and RowTail: the entries of silent slots
      are written without their name. */
  lemma SilentPiece(k: SlotKey, v: string)
    requires k == ColumnSlot || k == MultiSlot
    ensures Piece(k, v) == " " + v
  {
  }

  /** Stepping stone for RowsTail and RowTail: the VALUES entry as
      sqlConstruct writes it. */
  lemma ValuesPiece(v: string)
    ensures Piece(ValuesSlot, v) == " VALUES " + v
  {
  }

  /** Three entries render as their three pieces in order. */
  lemma RenderedThree(ks: seq<SlotKey>, c: Chain)
    requires |ks| == 3 && forall k :: k in ks ==> k in c
    ensures Rendered(ks, c) == Piece(ks[0], c[ks[0]]) + Piece(ks[1], c[ks[1]]) + Piece(ks[2], c[ks[2]])
  {
    assert ks[..2][..1] == ks[..1] && ks[..1][..0] == [];
    assert ks[..2][1] == ks[1] && ks[..1][0] == ks[0];
    assert Rendered(ks[..1], c) == Piece(ks[0], c[ks[0]]);
    assert Rendered(ks[..2], c) == Rendered(ks[..1], c) + Piece(ks[1], c[ks[1]]);
  }

  /** The linearisation of a column tuple, a first row and extra rows. */
  lemma RowsTail(c: Chain, cols: string, row: string, more: string)
    requires c == map[ColumnSlot := cols, ValuesSlot := row, MultiSlot := more]
    ensures Tail(c) == " " + cols + (" VALUES " + row) + (" " + more)
  {
    var ks := [ColumnSlot, ValuesSlot, MultiSlot];
    AdjacentAscending(ks);
    TailInOrder(c, ks);
    RenderedThree(ks, c);
    assert Tail(c) == Piece(ColumnSlot, cols) + Piece(ValuesSlot, row) + Piece(MultiSlot, more);
    SilentPiece(ColumnSlot, cols);
    ValuesPiece(row);
    SilentPiece(MultiSlot, more);
  }

  /** Stepping stone for RowsAppend: its rendered rows, as one text. */
  lemma RowsText(q1: string, q2: string)
    ensures " " + ("(" + ("`" + "x" + "`") + ")") + (" VALUES " + ("(" + q1 + ")")) + (" " + ("," + ("(" + q2 + ")"))) ==
      " (`x`) VALUES (" + q1 + ") ,(" + q2 + ")"
  {
  }

  /** A second values() call with a positional row adds a row to the
      statement. */
  method RowsAppend(h: Host) returns (s: string)
    ensures s == "INSERT INTO t" + (" (`x`) VALUES (" + h.quote("1") + ") ,(" + h.quote("2") + ")")
  {
    InsertHead();
    ValuesOptions();
    Digits();
    FirstRowChain(h, map[], "x", 1, false);
    var q := new Element.Statement(h, "t", "INSERT", []);
    var e1 := q.Values([Entry(KStr("x"), Int(1))], Absent);
    AppendRowChain(h, e1.chain, 2);
    var e2 := e1.Values([Entry(KInt(0), Int(2))], Absent);
    RowsTail(e2.chain, "(" + ("`" + "x" + "`") + ")", "(" + h.quote("1") + ")", "," + ("(" + h.quote("2") + ")"));
    RowsText(h.quote("1"), h.quote("2"));
    s := e2.Sql();
  }

  /** A later keyed row `name => n` with merge widens both tuples of the
      first row. */
  lemma MergeRowChain(h: Host, c: Chain, cols: string, vals: string, name: string, n: int)
    requires c == map[ColumnSlot := "(" + cols + ")", ValuesSlot := "(" + vals + ")"]
    requires ')' !in cols && '\n' !in cols && ')' !in vals && '\n' !in vals
    requires ')' !in name && '\n' !in name
    requires ')' !in h.quote(IntText(n)) && '\n' !in h.quote(IntText(n))
    ensures ValuesChain(h, c, [Entry(KStr(name), Int(n))], false, true) ==
      map[ColumnSlot := "(" + cols + "," + ("`" + name + "`") + ")",
          ValuesSlot := "(" + vals + "," + h.quote(IntText(n)) + ")"]
  {
    var a := [Entry(KStr(name), Int(n))];
    assert a[0].key.KStr?;
    assert ColumnNames(a) == ["`" + name + "`"];
    assert PairCells(h, false, a) == [h.quote(IntText(n))];
    ValuesMergeRow(h, c, a, false, cols, vals);
    var r := ValuesChain(h, c, a, false, true);
    assert r.Keys == {ColumnSlot, ValuesSlot};
  }

  /** Two entries render as their two pieces in order. */
  lemma RenderedTwo(ks: seq<SlotKey>, c: Chain)
    requires |ks| == 2 && forall k :: k in ks ==> k in c
    ensures Rendered(ks, c) == Piece(ks[0], c[ks[0]]) + Piece(ks[1], c[ks[1]])
  {
    assert ks[..1][..0] == [] && ks[..1][0] == ks[0];
    assert Rendered(ks[..1], c) == Piece(ks[0], c[ks[0]]);
  }

  /** The linearisation of a column tuple and a first row. */
  lemma RowTail(c: Chain, cols: string, row: string)
    requires c == map[ColumnSlot := cols, ValuesSlot := row]
    ensures Tail(c) == " " + cols + (" VALUES " + row)
  {
    var ks := [ColumnSlot, ValuesSlot];
    AdjacentAscending(ks);
    TailInOrder(c, ks);
    RenderedTwo(ks, c);
    assert Tail(c) == Piece(ColumnSlot, cols) + Piece(ValuesSlot, row);
    SilentPiece(ColumnSlot, cols);
    ValuesPiece(row);
  }

  /** Stepping stone for RowsMerge: its rendered merged row, as one text. */
  lemma MergedText(q1: string, q2: string)
    ensures " " + ("(" + ("`" + "x" + "`") + "," + ("`" + "y" + "`") + ")") + (" VALUES " + ("(" + q1 + "," + q2 + ")")) ==
      " (`x`,`y`) VALUES (" + q1 + "," + q2 + ")"
  {
  }

  /** A second values() call with a keyed row and the flag "merge" widens
      the first row instead of adding one, provided the quoted values hold
      no `)` or line break (the tuple merge looks for the first `)`). */
  method RowsMerge(h: Host) returns (s: string)
    requires ')' !in h.quote("1") && '\n' !in h.quote("1")
    requires ')' !in h.quote("2") && '\n' !in h.quote("2")
    ensures s == "INSERT INTO t" + (" (`x`,`y`) VALUES (" + h.quote("1") + "," + h.quote("2") + ")")
  {
    InsertHead();
    ValuesOptions();
    Digits();
    FirstRowChain(h, map[], "x", 1, false);
    var q := new Element.Statement(h, "t", "INSERT", []);
    var e1 := q.Values([Entry(KStr("x"), Int(1))], Absent);
    assert ')' !in "`" + "x" + "`" && '\n' !in "`" + "x" + "`" && ')' !in "y" && '\n' !in "y";
    MergeRowChain(h, e1.chain, "`" + "x" + "`", h.quote("1"), "y", 2);
    var e2 := e1.Values([Entry(KStr("y"), Int(2))], Flag("merge"));
    RowTail(e2.chain, "(" + ("`" + "x" + "`") + "," + ("`" + "y" + "`") + ")", "(" + h.quote("1") + "," + h.quote("2") + ")");
    MergedText(h.quote("1"), h.quote("2"));
    s := e2.Sql();
  }

  // ---- orderBy() ----

  /** An array of two column => direction pairs fills the ORDER BY slot as
      two single-column calls do, whatever the slot held. */
  lemma PairsAsColumns(c: Chain, k1: string, d1: string, k2: string, d2: string)
    ensures Insert(c, "ORDER BY", Ordering(OrderPairs([Entry(KStr(k1), Str(d1)), Entry(KStr(k2), Str(d2))]))) ==
      Insert(Insert(c, "ORDER BY", Ordering(OrderColumn(k1, Some(d1)))), "ORDER BY", Ordering(OrderColumn(k2, Some(d2))))
  {
    var p := [Entry(KStr(k1), Str(d1)), Entry(KStr(k2), Str(d2))];
    OrderByPairsIsSequential(c, p);
    var xs := seq(|p|, i requires 0 <= i < |p| => Ordering(OrderColumn(KeyText(p[i].key), Some(ToStr(p[i].value)))));
    assert xs[0] == Ordering(OrderColumn(k1, Some(d1))) && xs[1] == Ordering(OrderColumn(k2, Some(d2)));
    assert xs[..1][..0] == [] && xs[..1][0] == xs[0];
    assert InsertEach(c, "ORDER BY", xs[..1]) == Insert(c, "ORDER BY", xs[0]);
  }

  /** orderBy(array('time' => 'DESC', 'age' => 'ASC')) and
      orderBy('time', 'DESC')->orderBy('age', 'ASC') build the same
      statement. */
  method OrderByForms(h: Host) returns (s1: string, s2: string)
    ensures s1 == s2
  {
    var q1 := new Element.Statement(h, "t", "SELECT", Everything);
    PairsAsColumns(q1.chain, "time", "DESC", "age", "ASC");
    var e1 := q1.OrderBy(OrderPairs([Entry(KStr("time"), Str("DESC")), Entry(KStr("age"), Str("ASC"))]));
    var q2 := new Element.Statement(h, "t", "SELECT", Everything);
    var e2 := q2.OrderBy(OrderColumn("time", Some("DESC")));
    var e3 := e2.OrderBy(OrderColumn("age", Some("ASC")));
    s1 := e1.Sql();
    s2 := e3.Sql();
  }
}
