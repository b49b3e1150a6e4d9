/** The builder object: `DB_Exec` (the statement head and the clause chain,
    and their linearisation by sql()), `DB_Element` (the fluent clause
    operations) and the constructor of `DB_Statement` (the head strings).
    The three PHP classes form one inheritance chain over the same two
    fields, so they are one class here. */
module Query {
  import opened Php
  import opened Strings
  import opened Patterns
  import opened ClauseChain
  import opened Options
  import opened Render

  /** The statement kinds DB_Statement knows. */
  const Verbs: set<string> := {"SELECT", "UPDATE", "INSERT", "DELETE"}

  /** The head `DB_Statement::__construct` writes: the verb first and the
      table last; SELECT takes its field list from `$params['fields']`. A
      kind outside Verbs leaves the empty head of DB_Exec. */
  function Head(table: string, kind: string, params: PhpArray): (r: string)
    ensures kind in Verbs ==> |r| > |kind| && r[..|kind|] == kind && r[|kind|] == ' '
    ensures kind in Verbs ==> |r| >= |table| && r[|r| - |table|..] == table
    ensures kind !in Verbs ==> r == ""
  {
    if kind == "SELECT" then "SELECT " + ToStr(Lookup(params, KStr("fields"))) + " FROM " + table
    else if kind == "UPDATE" then "UPDATE " + table
    else if kind == "INSERT" then "INSERT INTO " + table
    else if kind == "DELETE" then "DELETE FROM " + table
    else ""
  }

  /** The first argument of where(): an array of column => value, or a
      condition already written out. */
  datatype Filter = Pairs(pairs: PhpArray) | Raw(text: string)

  /** `$options['secure']` after extendOptions, as a condition. */
  function SecureOption(defaults: PhpArray, options: Arg): bool
  {
    Truthy(OptionValue(defaults, options, KStr("secure")))
  }

  /** The fragment where() hands to the WHERE slot. */
  function WhereText(h: Host, params: Filter, options: Arg): (r: string)
    ensures params.Raw? ==> r == params.text
    ensures params.Pairs? && |params.pairs| == 0 ==> r == ""
    ensures params.Pairs? && |params.pairs| > 0 ==> |r| > 0 && r[|r| - 1] == ' '
  {
    match params
    case Raw(t) => t
    case Pairs(p) =>
      PredicateText(h, p, SecureOption(WhereDefaults, options),
        ToStr(OptionValue(WhereDefaults, options, KStr("operator"))))
  }

  /** The chain after values(): a later call with a positional row or
      without merge appends a row to the silent MULTIVALUES slot; otherwise
      a column tuple and a value tuple go to COLUMN and VALUES, where the
      tuple merge widens what is there. A positional row has no column
      names, so it hands COLUMN the empty string. */
  function ValuesChain(h: Host, c: Chain, insert: PhpArray, secure: bool, merge: bool): (r: Chain)
    ensures WellFormed(c) ==> WellFormed(r)
    ensures ValuesSlot in r
    ensures forall k :: k in c && k !in {ColumnSlot, ValuesSlot, MultiSlot} ==> k in r && r[k] == c[k]
  {
    SilentSlots();
    var later := ValuesSlot in c;
    if later && !IsAssoc(insert) then
      var row := Tuple(ListCells(h, secure, insert));
      if !merge then Insert(c, "MULTIVALUES", "," + row)
      else Insert(Insert(c, "COLUMN", ""), "VALUES", row)
    else
      var row := Tuple(PairCells(h, secure, insert));
      if later && !merge then Insert(c, "MULTIVALUES", "," + row)
      else Insert(Insert(c, "COLUMN", Tuple(ColumnNames(insert))), "VALUES", row)
  }

  /** values() keeps the chain well formed: COLUMN and VALUES are written
      together, and MULTIVALUES only once VALUES exists. */
  lemma ValuesWellFormed(h: Host, c: Chain, insert: PhpArray, secure: bool, merge: bool)
    requires WellFormed(c)
    ensures WellFormed(ValuesChain(h, c, insert, secure, merge))
  {
    SilentSlots();
  }

  /** The first values() call writes the column tuple and the value tuple
      of a keyed row, whatever the merge option says, and touches no other
      slot. */
  lemma ValuesFirstRow(h: Host, c: Chain, insert: PhpArray, secure: bool, merge: bool)
    requires WellFormed(c) && ValuesSlot !in c
    ensures var r := ValuesChain(h, c, insert, secure, merge);
      && r.Keys == c.Keys + {ColumnSlot, ValuesSlot}
      && r[ColumnSlot] == Tuple(ColumnNames(insert))
      && r[ValuesSlot] == Tuple(PairCells(h, secure, insert))
      && forall k :: k in c ==> r[k] == c[k]
  {
    SilentSlots();
  }

  /** A later values() call without merge appends "," and a row to the
      MULTIVALUES slot and changes nothing else; a positional row uses the
      list emptiness test, a keyed row the null test. */
  lemma ValuesAppendRow(h: Host, c: Chain, insert: PhpArray, secure: bool)
    requires WellFormed(c) && ValuesSlot in c
    ensures var r := ValuesChain(h, c, insert, secure, false);
      var row := if IsAssoc(insert) then Tuple(PairCells(h, secure, insert)) else Tuple(ListCells(h, secure, insert));
      && r.Keys == c.Keys + {MultiSlot}
      && r[MultiSlot] == (if MultiSlot in c then c[MultiSlot] + "," + row else "," + row)
      && forall k :: k in c && k != MultiSlot ==> r[k] == c[k]
  {
    SilentSlots();
    var row := if IsAssoc(insert) then Tuple(PairCells(h, secure, insert)) else Tuple(ListCells(h, secure, insert));
    assert ValuesChain(h, c, insert, secure, false) == Insert(c, "MULTIVALUES", "," + row);
    InsertFrame(c, "MULTIVALUES", "," + row);
    if MultiSlot in c {
      MultiValuesMerge(c, "," + row);
      assert c[MultiSlot] + ("," + row) == c[MultiSlot] + "," + row;
    }
  }

  /** A later values() call with merge and a keyed row widens the column
      tuple and the value tuple of the first row: the new names and values
      follow the old ones inside the same parentheses. */
  lemma ValuesMergeRow(h: Host, c: Chain, insert: PhpArray, secure: bool, cols: string, vals: string)
    requires WellFormed(c) && ValuesSlot in c && IsAssoc(insert)
    requires c[ColumnSlot] == "(" + cols + ")" && c[ValuesSlot] == "(" + vals + ")"
    requires ')' !in cols && '\n' !in cols && ')' !in vals && '\n' !in vals
    requires forall i :: 0 <= i < |insert| ==>
      ')' !in ColumnNames(insert)[i] && '\n' !in ColumnNames(insert)[i] &&
      ')' !in PairCells(h, secure, insert)[i] && '\n' !in PairCells(h, secure, insert)[i]
    ensures var r := ValuesChain(h, c, insert, secure, true);
      && r.Keys == c.Keys
      && r[ColumnSlot] == "(" + cols + "," + Join(ColumnNames(insert), ", ") + ")"
      && r[ValuesSlot] == "(" + vals + "," + Join(PairCells(h, secure, insert), ", ") + ")"
      && forall k :: k in c && k !in {ColumnSlot, ValuesSlot} ==> r[k] == c[k]
  {
    SilentSlots();
    var jn, jv := Join(ColumnNames(insert), ", "), Join(PairCells(h, secure, insert), ", ");
    assert ValuesChain(h, c, insert, secure, true) == Insert(Insert(c, "COLUMN", "(" + jn + ")"), "VALUES", "(" + jv + ")");
    JoinAvoids(ColumnNames(insert), ", ", ')');
    JoinAvoids(ColumnNames(insert), ", ", '\n');
    JoinAvoids(PairCells(h, secure, insert), ", ", ')');
    JoinAvoids(PairCells(h, secure, insert), ", ", '\n');
    InsertTuple(c, "COLUMN", cols, jn);
    var mid := Insert(c, "COLUMN", "(" + jn + ")");
    InsertTuple(mid, "VALUES", vals, jv);
  }

  /** A later values() call with merge and a positional row widens the
      value tuple but hands COLUMN an empty string, which has no group, so
      the column list of the statement is replaced by nothing. */
  lemma ValuesListMergeDropsColumns(h: Host, c: Chain, insert: PhpArray, secure: bool)
    requires WellFormed(c) && ValuesSlot in c && !IsAssoc(insert)
    ensures ValuesChain(h, c, insert, secure, true)[ColumnSlot] == ""
  {
    SilentSlots();
    NoOpenParen("");
  }

  /** Two in() calls widen one tuple: the second call's values follow the
      first call's inside the same parentheses. */
  lemma InMergeWidens(c: Chain, p1: PhpArray, p2: PhpArray)
    requires SlotKey(3, "IN") !in c
    requires forall i :: 0 <= i < |p1| ==> ')' !in ToStr(Positional(p1)[i]) && '\n' !in ToStr(Positional(p1)[i])
    requires forall i :: 0 <= i < |p2| ==> ')' !in ToStr(Positional(p2)[i]) && '\n' !in ToStr(Positional(p2)[i])
    ensures Insert(Insert(c, "IN", InTuple(p1)), "IN", InTuple(p2))[SlotKey(3, "IN")] ==
      "(" + Join(InItems(p1), ", ") + "," + Join(InItems(p2), ", ") + ")"
  {
    InTupleGroup(p1);
    InTupleGroup(p2);
  }

  /** orderBy() with an array leaves the chain that one orderBy(column,
      direction) call per entry leaves. */
  lemma OrderByPairsIsSequential(c: Chain, p: PhpArray)
    requires |p| > 0
    ensures Insert(c, "ORDER BY", Ordering(OrderPairs(p))) ==
      InsertEach(c, "ORDER BY", seq(|p|, i requires 0 <= i < |p| =>
        Ordering(OrderColumn(KeyText(p[i].key), Some(ToStr(p[i].value))))))
  {
    var xs := seq(|p|, i requires 0 <= i < |p| => Ordering(OrderColumn(KeyText(p[i].key), Some(ToStr(p[i].value)))));
    forall i | 0 <= i < |p| ensures xs[i] == OrderItems(p)[i] {
      assert KeyText(p[i].key) + (" " + ToStr(p[i].value)) == KeyText(p[i].key) + " " + ToStr(p[i].value);
    }
    assert xs == OrderItems(p);
    CommaAccumulates(c, "ORDER BY", xs);
  }

  /** groupBy() with an array leaves the chain that one groupBy(column)
      call per column leaves. */
  lemma GroupByListIsSequential(c: Chain, cols: PhpArray)
    requires |cols| > 0
    ensures Insert(c, "GROUP BY", Grouping(GroupColumns(cols))) ==
      InsertEach(c, "GROUP BY", seq(|cols|, i requires 0 <= i < |cols| =>
        Grouping(GroupText(ToStr(Positional(cols)[i])))))
  {
    var xs := seq(|cols|, i requires 0 <= i < |cols| => Grouping(GroupText(ToStr(Positional(cols)[i]))));
    assert xs == GroupItems(cols);
    CommaAccumulates(c, "GROUP BY", xs);
  }

  class Element {
    const db: Host
    var chain: Chain
    var sql: string

    /** The chain holds only INDEX slots, a column list exactly when it
        holds a first value row, and extra rows only after a first row. */
    ghost predicate Valid()
      reads this
    {
      WellFormed(chain)
    }

    /** e is a copy of this builder as it is now (`element()`). */
    ghost predicate CopiedTo(e: Element)
      reads this, e
    {
      e.db == db && e.chain == chain && e.sql == sql && e.Valid()
    }

    /** `DB_Exec::__construct($db, $chain, $sql)`: an unset chain is empty,
        an unset head is "". */
    constructor (db: Host, chain: Option<Chain>, sql: Option<string>)
      requires chain.Some? ==> WellFormed(chain.value)
      ensures Valid() && this.db == db
      ensures this.chain == if chain.Some? then chain.value else map[]
      ensures this.sql == if sql.Some? then sql.value else ""
    {
      this.db := db;
      this.chain := if chain.Some? then chain.value else map[];
      this.sql := if sql.Some? then sql.value else "";
    }

    /** `DB_Statement::__construct($db, $table, $type, $params)`: an empty
        chain under the head of the statement kind. */
    constructor Statement(db: Host, table: string, kind: string, params: PhpArray)
      ensures Valid() && this.db == db && chain == map[]
      ensures sql == Head(table, kind, params)
    {
      this.db := db;
      this.chain := map[];
      this.sql := Head(table, kind, params);
    }

    /** `addElement($type, $str)`: writes the type's slot in place, merging
        with what the slot holds by the type's rule. */
    method AddElement(t: string, s: string)
      requires Resolve(t).Some?
      modifies this
      ensures chain == Insert(old(chain), t, s)
      ensures sql == old(sql)
    {
      var slot := Resolve(t).value;
      var str := s;
      if slot in chain {
        str := Merge(t, chain[slot], s);
      }
      chain := chain[slot := str];
    }

    /** `element()`: a new builder over a copy of the chain and head. */
    method Copy() returns (e: Element)
      requires Valid()
      ensures fresh(e) && CopiedTo(e)
    {
      e := new Element(db, Some(chain), Some(sql));
    }

    /** addElement on a slot other than the three of values(), followed by
        element(): the shape of every one-slot operation. */
    method AddAndCopy(t: string, s: string) returns (e: Element)
      requires Valid()
      requires Resolve(t).Some? && Resolve(t).value !in {ColumnSlot, ValuesSlot, MultiSlot}
      modifies this
      ensures Valid() && sql == old(sql)
      ensures chain == Insert(old(chain), t, s)
      ensures fresh(e) && CopiedTo(e)
    {
      InsertWellFormed(chain, t, s);
      AddElement(t, s);
      e := Copy();
    }

    /** `where($params, $options)`: the predicates of an array, or a raw
        condition, ANDed onto the WHERE slot. */
    method Where(params: Filter, options: Arg) returns (e: Element)
      requires Valid()
      modifies this
      ensures Valid() && sql == old(sql)
      ensures chain == Insert(old(chain), "WHERE", WhereText(db, params, options))
      ensures fresh(e) && CopiedTo(e)
    {
      assert WhereDefaults[0].key == KStr("secure") && WhereDefaults[1].key == KStr("operator");
      var opts := ExtendOptions(WhereDefaults, options);
      var str;
      match params {
        case Pairs(p) =>
          str := StrConstruct(db, p, Truthy(Lookup(opts, KStr("secure"))), ToStr(Lookup(opts, KStr("operator"))));
        case Raw(t) =>
          str := t;
      }
      e := AddAndCopy("WHERE", str);
    }

    /** `in($params)`: the tuple of double-quoted values in the IN slot. */
    method In(params: PhpArray) returns (e: Element)
      requires Valid()
      modifies this
      ensures Valid() && sql == old(sql)
      ensures chain == Insert(old(chain), "IN", InTuple(params))
      ensures fresh(e) && CopiedTo(e)
    {
      var str := RenderIn(params);
      e := AddAndCopy("IN", str);
    }

    /** `between($param1, $param2)`. */
    method Between(lo: Value, hi: Value) returns (e: Element)
      requires Valid()
      modifies this
      ensures Valid() && sql == old(sql)
      ensures chain == Insert(old(chain), "BETWEEN", BetweenText(lo, hi))
      ensures fresh(e) && CopiedTo(e)
    {
      var str := "\"" + ToStr(lo) + "\" AND \"" + ToStr(hi) + "\"";
      assert str == BetweenText(lo, hi);
      e := AddAndCopy("BETWEEN", str);
    }

    /** `like($expr)`. */
    method Like(expr: Value) returns (e: Element)
      requires Valid()
      modifies this
      ensures Valid() && sql == old(sql)
      ensures chain == Insert(old(chain), "LIKE", DoubleQuoted(expr))
      ensures fresh(e) && CopiedTo(e)
    {
      e := AddAndCopy("LIKE", "\"" + ToStr(expr) + "\"");
    }

    /** `regexp($expr)`. */
    method Regexp(expr: Value) returns (e: Element)
      requires Valid()
      modifies this
      ensures Valid() && sql == old(sql)
      ensures chain == Insert(old(chain), "REGEXP", DoubleQuoted(expr))
      ensures fresh(e) && CopiedTo(e)
    {
      e := AddAndCopy("REGEXP", "\"" + ToStr(expr) + "\"");
    }

    /** `limit($param)`: the text as it is. */
    method Limit(param: string) returns (e: Element)
      requires Valid()
      modifies this
      ensures Valid() && sql == old(sql)
      ensures chain == Insert(old(chain), "LIMIT", param)
      ensures fresh(e) && CopiedTo(e)
    {
      e := AddAndCopy("LIMIT", param);
    }

    /** `orderBy($param, $option)`. */
    method OrderBy(arg: OrderArg) returns (e: Element)
      requires Valid()
      modifies this
      ensures Valid() && sql == old(sql)
      ensures chain == Insert(old(chain), "ORDER BY", Ordering(arg))
      ensures fresh(e) && CopiedTo(e)
    {
      var str := RenderOrderBy(arg);
      e := AddAndCopy("ORDER BY", str);
    }

    /** `groupBy($params)`. */
    method GroupBy(arg: GroupArg) returns (e: Element)
      requires Valid()
      modifies this
      ensures Valid() && sql == old(sql)
      ensures chain == Insert(old(chain), "GROUP BY", Grouping(arg))
      ensures fresh(e) && CopiedTo(e)
    {
      var str := RenderGroupBy(arg);
      e := AddAndCopy("GROUP BY", str);
    }

    /** `having($params)`: the predicates, ANDed, never escaped. */
    method Having(params: PhpArray) returns (e: Element)
      requires Valid()
      modifies this
      ensures Valid() && sql == old(sql)
      ensures chain == Insert(old(chain), "HAVING", PredicateText(db, params, false, "AND"))
      ensures fresh(e) && CopiedTo(e)
    {
      var str := StrConstruct(db, params, false, "AND");
      e := AddAndCopy("HAVING", str);
    }

    /** `set($params, $secure)`: the assignments, separated by ",". */
    method Set(params: PhpArray, secure: bool) returns (e: Element)
      requires Valid()
      modifies this
      ensures Valid() && sql == old(sql)
      ensures chain == Insert(old(chain), "SET", PredicateText(db, params, secure, ","))
      ensures fresh(e) && CopiedTo(e)
    {
      var str := StrConstruct(db, params, secure, ",");
      e := AddAndCopy("SET", str);
    }

    /** `values($insert, $options)`. */
    method Values(insert: PhpArray, options: Arg) returns (e: Element)
      requires Valid()
      modifies this
      ensures Valid() && sql == old(sql)
      ensures chain == ValuesChain(db, old(chain), insert, SecureOption(ValuesDefaults, options),
        Truthy(OptionValue(ValuesDefaults, options, KStr("merge"))))
      ensures fresh(e) && CopiedTo(e)
    {
      assert ValuesDefaults[0].key == KStr("secure") && ValuesDefaults[1].key == KStr("merge");
      var opts := ExtendOptions(ValuesDefaults, options);
      var secure := Truthy(Lookup(opts, KStr("secure")));
      var merge := Truthy(Lookup(opts, KStr("merge")));
      var strKey := "";
      var strValue;
      var valuesExist := ValuesSlot in chain;
      if valuesExist && !IsAssoc(insert) {
        strValue := RenderListRow(db, insert, secure);
      } else {
        strKey, strValue := RenderPairRow(db, insert, secure);
      }
      SilentSlots();
      ghost var c := chain;
      assert secure == SecureOption(ValuesDefaults, options);
      assert merge == Truthy(OptionValue(ValuesDefaults, options, KStr("merge")));
      if valuesExist && !merge {
        AddElement("MULTIVALUES", "," + strValue);
      } else {
        AddElement("COLUMN", strKey);
        AddElement("VALUES", strValue);
      }
      assert chain == ValuesChain(db, c, insert, secure, merge);
      ValuesWellFormed(db, c, insert, secure, merge);
      e := Copy();
    }

    /** `sql()`, with `sqlConstruct()`: appends the linearised chain to the
        head and returns the head. The head keeps what is appended, so a
        second call appends the tail again. */
    method Sql() returns (r: string)
      requires Valid()
      modifies this
      ensures Valid() && chain == old(chain)
      ensures sql == old(sql) + Tail(old(chain))
      ensures r == sql
    {
      var c := chain;
      var ks := KeySort(c);
      var i := 0;
      while i < |ks|
        invariant 0 <= i <= |ks|
        invariant chain == c
        invariant sql == old(sql) + Rendered(ks[..i], c)
      {
        var name := ks[i].name;
        var value := c[ks[i]];
        var piece;
        if |name| > 0 && name[0] == '~' {
          piece := " " + value;
        } else {
          piece := " " + name + " " + value;
        }
        assert piece == Piece(ks[i], c[ks[i]]);
        RenderedStep(old(sql), ks, c, i);
        sql := sql + piece;
        i := i + 1;
      }
      assert ks[..i] == ks;
      TailInOrder(c, ks);
      r := sql;
    }
  }
}
