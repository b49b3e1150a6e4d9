# Database-Query-Chaining: the clause builder, modelled in Dafny

This project models the query builder of `db.class.php`. That builder is
the fluent interface through which a client writes an SQL statement.
`DB_Statement` writes the statement head, such as `SELECT * FROM t` or
`INSERT INTO t`. Each fluent call then renders its arguments into an SQL
fragment: `where`, `in`, `between`, `like`, `regexp`, `limit`, `orderBy`,
`groupBy`, `having`, `set` and `values`. `addElement` stores that
fragment in the *chain*, a dictionary whose keys are
`"<priority>-<clause name>"` and come from the static table `INDEX`. When
the clause already holds a fragment, `addElement` merges the new one
into it by a per-clause rule. The call then returns `element()`, a new
builder over a copy of the chain. `sql()` sorts the chain by key
(`ksort`) and appends every fragment to the head it keeps. A fragment is
written as ` NAME fragment`, or as ` fragment` when the name begins with
`~`.

The modules follow the program:

- `Php` holds PHP values and ordered arrays (`PhpArray`, a sequence of
  key/value entries). It also holds the emptiness and truth tests the
  code uses, `$a[$k]` and `$a[$k] = $v`, and `is_assoc`. The database
  handle's `quote` and `htmlspecialchars` enter as the two function
  fields of a `Host` value.
- `Strings` holds joining, the trimming of a trailing separator,
  `str_replace` of a whole needle, and the byte order that `ksort`
  applies to keys.
- `Patterns` holds the two regular expressions of the core. The first
  is the leading comparison operator, an ordered alternation. The second
  is the first parenthesised group, matched lazily. Both are written as
  string functions.
- `Options` holds `extendOptions` as a method. It is proved against
  `OptionValue`, the value each option reads afterwards.
- `ClauseChain` holds `INDEX`, the slot a clause type resolves to, the
  merge rules of `addElement` and the linearisation of `sqlConstruct`.
  `SortedKeys` is proved to be the unique ascending enumeration of the
  chain's keys. `Tail` is the text that `sqlConstruct` appends.
- `Render` holds the loops that build fragments (`strConstruct`, `in`,
  `orderBy`, `groupBy`, and the two row loops of `values`). Each loop is
  a method proved equal to a closed-form function, and lemmas state what
  that function means.
- `Query` holds the builder object, the class `Element`. It merges
  `DB_Exec`, `DB_Element` and the `DB_Statement` constructor into one
  class, because the subclasses add no state. Its fields are `db`,
  `chain` and `sql`. Every fluent method writes its fragment into the
  receiver's chain in place and returns a fresh copy.
- `Scenarios` holds whole statements built through the class, and
  single predicates, following the examples in the class documentation.

Behaviour of the code that these proofs make explicit:

- `in`, `between`, `like` and `regexp` write their values between
  literal double quotes. They do not use `quote()`.
- `strConstruct` trims the trailing separator but leaves the space
  before it. A non-empty predicate array therefore renders with a
  trailing space, and two `where` calls with non-empty arrays put two
  spaces before `AND`. An empty array renders as the empty text, and raw
  text is stored as given.
- The operator test comes first. A value that begins with `<`, for
  example `"<b>"`, is taken as an operator plus a raw value. It is
  neither escaped nor quoted, even with `secure`.
- The operator regex is an ordered alternation. `>=`, `<=` and `<>`
  therefore always match as `>` or `<`, and `str_replace` removes every
  occurrence of the matched operator from the value.
- Once one value has an operator, every later value in the same call
  uses that operator unquoted.
- The first `values` row, like any keyed row, writes only null as
  `NULL`. A later positional row also writes `""` and `false` as `NULL`.
- `values` with a positional row and `merge` on a later call empties
  the column list.
- `orderBy("age")` writes no `ASC`.
- `sql()` appends to the head it keeps, so a second call renders the
  clauses twice.
- A fluent call writes into its receiver before it copies. Two branches
  taken from one builder therefore see each other's earlier clauses.

## Model

| member | source | states |
|---|---|---|
| `Php.IsAssoc` | db.class.php:659-661 | An empty array counts as associative. A non-empty list `0..n-1` does not. An array with any string key does. |
| `Php.IsBlank` | db.class.php:757 | The `empty($v) && $v !== 0 && $v !== '0'` test holds exactly for null, false and the empty string. |
| `Php.LookupStore` | db.class.php:685-692 | After `$a[$k] = $v`, key k reads v and every other key reads what it read before. |
| `Strings.TrimTrailing` | db.class.php:764 | Trimming a trailing separator leaves a prefix of the text. When the text ends with the separator, exactly that suffix is removed. |
| `Strings.RemoveAll` | db.class.php:756 | `str_replace` never lengthens the value. When the value starts with the needle, the result is shorter by at least the needle's length. |
| `Strings.StrLess` | db.class.php:152 | The byte order that ksort applies to names is irreflexive: no name sorts before itself. |
| `Options.ExtendOptions` | db.class.php:677-696 | Every default key reads its value after extension. With no options, that is the default. A flag name switches on the boolean default it names and nothing else. With an array argument, a key that is unset (null or absent) takes the default, and the array keeps every other key. |
| `Options.OptionValue` | db.class.php:677-696 | An option reads null only when its default does. With an array argument, a key the caller set wins over the default. Without options, the default is read. |
| `Options.LookupMissing` | db.class.php:684-691 | A key that the array lacks reads null, so an option absent from the defaults reads as unset. |
| `Patterns.MatchOperator` | db.class.php:753 | The operator found, if any, is a non-empty prefix of the value, at most two characters long. |
| `Patterns.MatchOperatorReachable` | db.class.php:753 | Only the six unshadowed alternatives are ever selected: `=`, `!=`, `<`, `>`, `!<`, `!>`. |
| `Patterns.FirstPrefix` | db.class.php:753 | An ordered alternation returns one of its alternatives, and that alternative is a prefix of the subject. |
| `Patterns.MatchOperatorIsAlternation` | db.class.php:753 | The first-character rule equals PCRE's ordered alternation over `=, !=, <, >, >=, <=, <>, !<, !>` anchored at the start. So a value starting with `>=`, `<=` or `<>` matches the one-character `>` or `<`. |
| `Patterns.ShadowedAlternatives` | db.class.php:753 | For a value that starts with neither `<` nor `>`, the alternatives after `>` can select only `!<` or `!>`: `>=`, `<=` and `<>` never match. |
| `Patterns.IntHasNoOperator` | db.class.php:753 | An integer's decimal text never starts with an operator, so integer values are always quoted while no operator is in force. |
| `Patterns.CloseFrom` | db.class.php:731 | The lazy `.*?` stops at a `)`, and no `)` or newline lies between the scan start and that position. |
| `Patterns.GroupFrom` | db.class.php:731-733 | A group captured from a given position onward holds no `)` and no newline. |
| `Patterns.FirstGroup` | db.class.php:731-733 | The first group `\((.*?)\)` of a fragment, when there is one, holds no `)` and no newline. |
| `Patterns.TupleGroup` | db.class.php:731-733 | In the merge regex `\((.*?)\)`, the first group of `"(" + a + ")"` is `a` when `a` holds no `)` and no newline. |
| `Patterns.NoOpenParen` | db.class.php:731-733 | A fragment without `(` has no group, so the tuple merge does not apply to it. |
| `ClauseChain.Resolve` | db.class.php:699-712 | A type resolves exactly when INDEX holds it, either as itself or prefixed by `~`. The slot found is an INDEX slot with that entry's priority. |
| `ClauseChain.ResolveInjective` | db.class.php:699-712 | Two clause types without a leading `~` that resolve to the same slot are the same type. |
| `ClauseChain.ClauseTypesResolve` | db.class.php:245-259 | Every clause type that the fluent operations pass to addElement has a slot in INDEX. |
| `ClauseChain.SilentSlots` | db.class.php:704-708 | COLUMN and MULTIVALUES resolve to the silent slots `1-~COLUMN` and `3-~MULTIVALUES`. |
| `ClauseChain.PlainSlot` | db.class.php:699-712 | A type that INDEX holds resolves to its own name under its own priority. |
| `ClauseChain.Insert` | db.class.php:698-741 | addElement adds exactly the type's slot to the keys. An empty slot receives the fragment unchanged. |
| `ClauseChain.InsertFrame` | db.class.php:713-741 | addElement leaves every slot but its own as it was. |
| `ClauseChain.Merge` | db.class.php:718-739 | Under WHERE, SET, ORDER BY, GROUP BY and MULTIVALUES the merged text is at least as long as the held and the new fragment together. A type outside the switch gets the new fragment unchanged. |
| `ClauseChain.MergeKeepsBoth` | db.class.php:718-738 | An accumulating merge keeps the held fragment as a prefix and the new fragment as a suffix. |
| `ClauseChain.WhereMerge` | db.class.php:718-722 | A second WHERE fragment is appended to the held one after ` AND `. |
| `ClauseChain.CommaMerge` | db.class.php:723-727 | SET, ORDER BY and GROUP BY append the new fragment after `, `. |
| `ClauseChain.MultiValuesMerge` | db.class.php:736-738 | Extra value rows are concatenated to the rows held. |
| `ClauseChain.LastWriteWins` | db.class.php:713-741 | LIMIT, HAVING, BETWEEN, LIKE and REGEXP have no merge rule, so the new fragment replaces the held one. |
| `ClauseChain.TupleMerge` | db.class.php:728-735 | IN, VALUES and COLUMN widen two tuples into one, joining the two insides with `,`. |
| `ClauseChain.TupleMergeReplaces` | db.class.php:731-735 | If either side of a tuple merge has no parenthesised group, the new fragment replaces the held one. |
| `ClauseChain.InsertCommutes` | db.class.php:698-742 | Clause types with distinct slots commute, so the chain does not depend on the order in which different clauses are called. |
| `ClauseChain.KeyLess` | db.class.php:152 | ksort's key order never relates a key to itself and never puts a higher priority before a lower one. |
| `ClauseChain.KeyLessTotal` | db.class.php:152 | Any two distinct keys are ordered one way or the other, so ksort's order is total. |
| `ClauseChain.SortedKeys` | db.class.php:152 | Every key ksort lists is a key of the chain. |
| `ClauseChain.CommaAccumulates` | db.class.php:723-727 | Successive calls of a comma-accumulating type leave the same chain as one call with the fragments joined by `, `. |
| `ClauseChain.SortedKeysSorted` | db.class.php:152 | ksort's order is strictly ascending (priority first, then the name's bytes) and lists exactly the chain's keys. |
| `ClauseChain.AscendingUnique` | db.class.php:152 | Only one ascending enumeration of a key set exists, so the output order is determined by the keys alone. |
| `ClauseChain.KeySort` | db.class.php:152 | Sorting returns an ascending enumeration of exactly the chain's keys. |
| `ClauseChain.Piece` | db.class.php:153-161 | Each chain entry is written after a leading space and ends with its value. |
| `ClauseChain.Rendered` | db.class.php:153-161 | The entries of a key list render as empty text exactly when the list is empty. |
| `ClauseChain.Tail` | db.class.php:151-163 | An empty chain appends nothing to the head. |
| `ClauseChain.TailInOrder` | db.class.php:151-163 | The appended text is the fragments in any ascending key order, each written as ` NAME value` or, for a `~` name, ` value`. |
| `ClauseChain.TailNonEmpty` | db.class.php:153-161 | A non-empty chain always appends some text. |
| `ClauseChain.InsertWellFormed` | db.class.php:698-742 | Writing any slot but the three of values() keeps the chain's invariant: the keys are INDEX slots, and a column list and extra rows only appear beside VALUES. |
| `Render.StrConstruct` | db.class.php:748-766 | The loop returns the conditions joined by ` SEP `, plus one space. Each condition is the key, the operator in force, and a value that is either NULL, the raw stripped value, or the quoted and optionally escaped value. |
| `Render.TakeOperator` | db.class.php:753-757 | One operator test moves the loop's `$operation`/`$quote` state from the state the values before i leave to the state value i leaves, and strips the value. |
| `Render.WritePredicate` | db.class.php:758-761 | Under the loop's state, one iteration writes exactly the condition of its pair. |
| `Render.PredicateText` | db.class.php:748-766 | An empty array gives the empty text. A non-empty array gives text that ends in a space, the one left by the trim. |
| `Render.OperatorState` | db.class.php:750-756 | The operator in force, when a value has set one, is one or two characters long. |
| `Render.OperatorStateReachable` | db.class.php:750-756 | The operator in force is always one of the six the pattern can select. |
| `Render.Stripped` | db.class.php:753-756 | A value that starts with an operator becomes a string shorter by at least that operator. A value without one is unchanged. |
| `Render.Condition` | db.class.php:758-761 | Every condition starts with the key followed by the operator in force, or `=` when there is none. A value that is blank once stripped gives that prefix followed by ` NULL`. |
| `Render.ConditionsAt` | db.class.php:752-762 | The i-th condition uses value i's own operator, or else the operator in force before it (`=` with quoting when there is none). That operator is the state left for the next value. |
| `Render.TrimSeparator` | db.class.php:764 | Accumulating with ` SEP ` and trimming `SEP ` leaves the join plus one trailing space. |
| `Render.OnePredicate` | db.class.php:748-766 | A single pair renders as its condition followed by one space. |
| `Render.OperatorCarries` | db.class.php:753-756 | Once a value sets operator op, it stays in force for every later value that has no operator of its own. |
| `Render.NoOperatorYet` | db.class.php:750-751 | Until some value starts with an operator, the operator is `=` and values are quoted. |
| `Render.NullRule` | db.class.php:757-761 | Without an operator, null, false and `""` are written ` NULL `. Any other value is quoted after optional escaping. |
| `Render.OperatorRule` | db.class.php:753-761 | Under an operator, a value that is not blank once stripped is written raw after the operator, with every occurrence of the operator removed. |
| `Render.OperatorRemoved` | db.class.php:756 | After a one-character operator is stripped, that character occurs nowhere in the value. |
| `Render.RenderIn` | db.class.php:332-339 | The loop returns `(` + the positional values in literal double quotes, joined by `, ` + `)`. |
| `Render.InTupleGroup` | db.class.php:332-339 | An in() tuple is one group whose inside is the joined values, so a second in() call widens it. |
| `Render.RenderOrderBy` | db.class.php:443-456 | An array gives `key value` items joined by `, `. A single column gives the column, followed by the direction only when one is given. |
| `Render.RenderGroupBy` | db.class.php:478-489 | An array gives its positional values joined by `, `. A string is kept unchanged. |
| `Render.CellTests` | db.class.php:620-646 | A later positional row writes `""` and false as NULL. A keyed row quotes them. Both write null as NULL and quote 0. |
| `Render.ListCell` | db.class.php:622-625 | In a later positional row, false and `""` are written as NULL. |
| `Render.PairCell` | db.class.php:639-642 | In a keyed row, false and `""` are quoted as the empty string, not written as NULL. |
| `Render.RenderListRow` | db.class.php:620-628 | The counted loop over a later positional row returns the tuple of its cells. Each cell is NULL for a blank value, otherwise the quoted value. |
| `Render.RenderPairRow` | db.class.php:636-646 | The foreach loop returns the tuple of backquoted keys and the tuple of cells, where only null becomes NULL. |
| `Render.TupleInside` | db.class.php:731-733 | A tuple whose items hold no `)` and no newline is one group, and its inside is the joined items. |
| `Query.Head` | db.class.php:780-797 | For a known statement kind, the head starts with the verb and a space and ends with the table name. Any other kind leaves the head empty. |
| `Query.WhereText` | db.class.php:306-312 | Raw text passes unchanged. An empty array gives the empty text. A non-empty array gives text ending in a space. |
| `Query.ValuesChain` | db.class.php:619-654 | values() keeps the chain's invariant, always leaves a VALUES slot, and leaves every slot outside COLUMN, VALUES and MULTIVALUES as it was. |
| `Query.ValuesWellFormed` | db.class.php:611-656 | values() keeps the chain's invariant. |
| `Query.ValuesFirstRow` | db.class.php:636-654 | The first values() call writes the column tuple and the value tuple and leaves every other slot alone. |
| `Query.ValuesAppendRow` | db.class.php:619-650 | A later call without merge appends `,` and the new row to the extra rows and leaves the column list and the first row unchanged. |
| `Query.ValuesMergeRow` | db.class.php:636-654 | A later keyed row with merge widens the column tuple and the value tuple by its keys and cells. |
| `Query.ValuesListMergeDropsColumns` | db.class.php:620-654 | A later positional row with merge sets the column list to the empty string. |
| `Query.InMergeWidens` | db.class.php:332-339 | Two in() calls give one tuple holding the first call's values followed by the second call's. |
| `Query.OrderByPairsIsSequential` | db.class.php:443-456 | orderBy(array) leaves the same chain as one orderBy(column, direction) call per pair, in order. |
| `Query.GroupByListIsSequential` | db.class.php:478-489 | groupBy(array) leaves the same chain as one groupBy(column) call per column, in order. |
| `Query.Element.constructor` | db.class.php:145-149 | An unset chain starts empty and an unset head starts as `""`. The handle is kept. |
| `Query.Element.Statement` | db.class.php:780-797 | The builder starts with an empty chain and the head of its statement kind. |
| `Query.Element.AddElement` | db.class.php:698-742 | The receiver's chain is updated in place by the merge rule of the type's slot. The head is unchanged. |
| `Query.Element.AddAndCopy` | db.class.php:741-746 | The receiver's chain is updated by the merge rule and its head is unchanged. The result is a fresh builder over the updated chain. |
| `Query.Element.Copy` | db.class.php:744-746 | A fresh builder over the same handle, chain and head. |
| `Query.Element.Where` | db.class.php:301-315 | The receiver's WHERE slot gains the predicates of an array, under the extended secure and operator options, or the raw text. The result is a fresh copy. |
| `Query.Element.In` | db.class.php:332-339 | The receiver's IN slot gains the double-quoted tuple. The result is a fresh copy. |
| `Query.Element.Between` | db.class.php:357-360 | The BETWEEN slot receives `"lo" AND "hi"`. |
| `Query.Element.Like` | db.class.php:376-379 | The LIKE slot receives the double-quoted pattern. |
| `Query.Element.Regexp` | db.class.php:394-397 | The REGEXP slot receives the double-quoted pattern. |
| `Query.Element.Limit` | db.class.php:409-412 | The LIMIT slot receives the text unchanged. |
| `Query.Element.OrderBy` | db.class.php:443-456 | The ORDER BY slot gains the ordering. |
| `Query.Element.GroupBy` | db.class.php:478-489 | The GROUP BY slot gains the grouping. |
| `Query.Element.Having` | db.class.php:507-511 | The HAVING slot receives the predicates ANDed, never escaped. |
| `Query.Element.Set` | db.class.php:671-675 | The SET slot gains the assignments, separated by `,`. |
| `Query.Element.Values` | db.class.php:611-656 | The chain becomes the values chain, under the extended secure and merge options. |
| `Query.Element.Sql` | db.class.php:151-163 | The head becomes the old head followed by the linearised chain, and that text is returned. The chain is unchanged. |
| `Scenarios.NullSubstitution` | db.class.php:757-758 | `a => ""` renders as `a= NULL `. |
| `Scenarios.ZeroIsQuoted` | db.class.php:757-760 | `a => 0` renders as the quoted `0`, not NULL. |
| `Scenarios.OperatorExtraction` | db.class.php:753-760 | `age => "<50"` renders as `age<50`, unquoted. |
| `Scenarios.SecureEscapes` | db.class.php:760 | With secure, a plain value is passed through htmlspecialchars before quote. |
| `Scenarios.SecureMissesMarkup` | db.class.php:753-760 | With secure, `"<b>"` is taken as the operator `<` and written raw. |
| `Scenarios.WhereAccumulates` | db.class.php:301-315 | Two where() calls on a SELECT give one WHERE clause with the two predicate lists ANDed. |
| `Scenarios.ForkSharesState` | db.class.php:741-746 | A second branch taken from one builder also carries the first branch's condition. |
| `Scenarios.SqlTwice` | db.class.php:151-163 | A second sql() call renders the clauses a second time. |
| `Scenarios.TwoPredicates` | db.class.php:752-764 | Two pairs render as two conditions around the separator. |
| `Scenarios.OperatorCarriesOver` | db.class.php:752-762 | An integer after an operator value is written under that operator, unquoted. |
| `Scenarios.ValuesOptions` | db.class.php:612-616 | By default values() neither escapes nor merges. The flag "merge" switches merge on. |
| `Scenarios.RowsAppend` | db.class.php:611-656 | values(x => 1) followed by values([2]) builds `INSERT INTO t` plus the column tuple, the first row, and `,` plus the second row. |
| `Scenarios.RowsMerge` | db.class.php:611-656 | values(x => 1) followed by values(y => 2, "merge") builds one two-column row. |
| `Scenarios.PairsAsColumns` | db.class.php:443-456 | An array of two column/direction pairs equals two single-column orderBy calls. |
| `Scenarios.OrderByForms` | db.class.php:443-456 | orderBy(array(time => DESC, age => ASC)) and the two chained calls build the same statement. |

## Left out

- The `DB` constructor (PDO connection and DSN, lines 48-88) and `_exec`/`exec`/`fetch`/`result`/`fetchAll` (lines 165-215) are left out as database I/O. `_exec` and `exec` call `sqlConstruct` first, which is modelled as `Query.Element.Sql`. `query` and `exec` on the handle are PDO's own methods. The factories `select`/`insert`/`update`/`delete` (lines 97-129) are modelled by `Query.Element.Statement` and `Query.Head`; `select` passes `array('fields' => $fields)` with `"*"` as the default.
- `quote()` and `htmlspecialchars()` are parameters (the `Host` value). Their outputs are not modelled, only where they are applied.
- The `$table` field is not modelled, because the core only stores it.
- Regular expressions are written as string functions. The trim pattern `SEP $` treats the separator literally, which holds for the separators used (`AND`, `OR`, `,`).
- `where`, `limit`, `orderBy` and `groupBy` take their raw-text argument as a string. A null or array argument where the code expects text is not modelled.
- `Query.Element.Values`: the argument is an array. The branch for a string argument (lines 629-635) is left out. It is unreachable, because `is_assoc` is false for a string and the positional branch runs first.
- `Options.ExtendOptions`: `false` as options is not a separate case. The loop at lines 689-693 turns it into an array of the defaults, so it behaves as `Absent`. `true`, numbers and objects make PHP fail and are not modelled.
- `Query.Element.AddElement`: requires that the type has an INDEX slot. The code would store under an undefined key for other types, and no fluent operation passes one.
- PHP's loose conversions (floats, arrays to string) are left out. Values are null, booleans, integers and strings, and integers are unbounded.
- `Query.Element.constructor`: requires a well-formed chain whose keys are INDEX slots. The public `DB_Exec` and `DB_Element` constructors (lines 145-149) accept any array as the chain, and such an arbitrary chain is not modelled. Both callers in the class pass a well-formed chain: `element()` passes the receiver's own chain (line 745), and `DB_Statement` passes none (line 781).
