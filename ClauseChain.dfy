/** The clause chain: a map from slots to rendered SQL fragments. A slot
    is what the source writes as the string key "<priority>-<name>"; here
    it is the pair itself. */
module ClauseChain {
  import opened Php
  import opened Strings
  import opened Patterns

  /** `DB_Element::$INDEX`: clause name to output priority. A name that
      begins with `~` is silent: only its fragment is written. */
  const INDEX: map<string, nat> := map[
    "~COLUMN" := 1, "SET" := 1,
    "VALUES" := 2, "WHERE" := 2,
    "IN" := 3, "BETWEEN" := 3, "LIKE" := 3, "REGEXP" := 3, "~MULTIVALUES" := 3,
    "GROUP BY" := 4, "HAVING" := 5, "ORDER BY" := 6, "LIMIT" := 7]

  /** The clause types the fluent operations hand to addElement. */
  const ClauseTypes: set<string> := {
    "COLUMN", "SET", "VALUES", "WHERE", "IN", "BETWEEN", "LIKE", "REGEXP",
    "MULTIVALUES", "GROUP BY", "HAVING", "ORDER BY", "LIMIT"}

  datatype SlotKey = SlotKey(priority: nat, name: string)

  type Chain = map<SlotKey, string>

  const ColumnSlot := SlotKey(1, "~COLUMN")
  const ValuesSlot := SlotKey(2, "VALUES")
  const MultiSlot := SlotKey(3, "~MULTIVALUES")
  const WhereSlot := SlotKey(2, "WHERE")

  /** k is one of the slots of INDEX. */
  predicate IsSlot(k: SlotKey)
  {
    k.name in INDEX && k.priority == INDEX[k.name]
  }

  /** The slot addElement writes for clause type t: t itself when INDEX
      holds it, otherwise "~" + t; None where INDEX holds neither (the
      source then leaves the key undefined). */
  function Resolve(t: string): (r: Option<SlotKey>)
    ensures r.Some? ==> IsSlot(r.value)
    ensures r.Some? <==> t in INDEX || "~" + t in INDEX
  {
    if t in INDEX then Some(SlotKey(INDEX[t], t))
    else if "~" + t in INDEX then Some(SlotKey(INDEX["~" + t], "~" + t))
    else None
  }

  /** Slot uniqueness: distinct clause types not written with a leading `~`
      never share a slot. */
  lemma ResolveInjective(t1: string, t2: string)
    requires Resolve(t1).Some? && Resolve(t1) == Resolve(t2)
    requires |t1| == 0 || t1[0] != '~'
    requires |t2| == 0 || t2[0] != '~'
    ensures t1 == t2
  {
    var n := Resolve(t1).value.name;
    if t1 !in INDEX && t2 !in INDEX {
      assert t1 == n[1..] == t2;
    }
  }

  /** Every clause type of the fluent operations resolves, and none is
      written with a leading `~`; so by ResolveInjective each has a slot
      of its own. */
  lemma ClauseTypesResolve()
    ensures forall t :: t in ClauseTypes ==> Resolve(t).Some? && (|t| == 0 || t[0] != '~')
  {
    assert "~COLUMN" == "~" + "COLUMN";
    assert "~MULTIVALUES" == "~" + "MULTIVALUES";
  }

  /** COLUMN and MULTIVALUES resolve to their silent slots. */
  lemma SilentSlots()
    ensures Resolve("COLUMN") == Some(ColumnSlot)
    ensures Resolve("MULTIVALUES") == Some(MultiSlot)
  {
    assert "~COLUMN" == "~" + "COLUMN";
    assert "~MULTIVALUES" == "~" + "MULTIVALUES";
  }

  /** A clause type INDEX holds resolves to its own name and priority. */
  lemma PlainSlot(t: string)
    requires t in INDEX
    ensures Resolve(t) == Some(SlotKey(INDEX[t], t))
  {
  }

  /** The per-type rule of addElement for an occupied slot: `held` is the
      fragment already stored, `added` the new one. */
  function Merge(t: string, held: string, added: string): (r: string)
    ensures t in {"WHERE", "SET", "ORDER BY", "GROUP BY", "MULTIVALUES"} ==>
      |r| >= |held| + |added|
    ensures t !in {"WHERE", "SET", "ORDER BY", "GROUP BY", "MULTIVALUES", "IN", "VALUES", "COLUMN"} ==> r == added
  {
    if t == "WHERE" then held + " AND " + added
    else if t in {"SET", "ORDER BY", "GROUP BY"} then held + ", " + added
    else if t in {"IN", "VALUES", "COLUMN"} then
      (match (FirstGroup(added), FirstGroup(held))
       case (Some(v), Some(c)) => "(" + c + "," + v + ")"
       case _ => added)
    else if t == "MULTIVALUES" then held + added
    else added
  }

  /** The chain after addElement(t, s). */
  function Insert(c: Chain, t: string, s: string): (r: Chain)
    requires Resolve(t).Some?
    ensures r.Keys == c.Keys + {Resolve(t).value}
    ensures Resolve(t).value !in c ==> r[Resolve(t).value] == s
  {
    var slot := Resolve(t).value;
    c[slot := if slot in c then Merge(t, c[slot], s) else s]
  }

  /** An accumulating merge keeps the held text in front and the new
      fragment at the end. */
  lemma MergeKeepsBoth(t: string, held: string, added: string)
    requires t in {"WHERE", "SET", "ORDER BY", "GROUP BY", "MULTIVALUES"}
    ensures held <= Merge(t, held, added)
    ensures var r := Merge(t, held, added); r[|r| - |added|..] == added
  {
  }

  /** Adding a type leaves every other slot as it was. */
  lemma InsertFrame(c: Chain, t: string, s: string)
    requires Resolve(t).Some?
    ensures forall k :: k in c && k != Resolve(t).value ==> Insert(c, t, s)[k] == c[k]
  {
  }

  /** Repeated where() calls are ANDed together. */
  lemma WhereMerge(c: Chain, s: string)
    requires WhereSlot in c
    ensures Insert(c, "WHERE", s)[WhereSlot] == c[WhereSlot] + " AND " + s
  {
  }

  /** SET, ORDER BY and GROUP BY accumulate with a comma. */
  lemma CommaMerge(c: Chain, t: string, s: string)
    requires t in {"SET", "ORDER BY", "GROUP BY"}
    requires Resolve(t).value in c
    ensures Insert(c, t, s)[Resolve(t).value] == c[Resolve(t).value] + ", " + s
  {
  }

  /** Extra value rows are concatenated. */
  lemma MultiValuesMerge(c: Chain, s: string)
    requires MultiSlot in c
    ensures Resolve("MULTIVALUES") == Some(MultiSlot) && Insert(c, "MULTIVALUES", s)[MultiSlot] == c[MultiSlot] + s
  {
    SilentSlots();
  }

  /** LIMIT, HAVING, BETWEEN, LIKE and REGEXP have no rule: last write wins. */
  lemma LastWriteWins(c: Chain, t: string, s: string)
    requires t in {"LIMIT", "HAVING", "BETWEEN", "LIKE", "REGEXP"}
    ensures Resolve(t).Some? && Insert(c, t, s)[Resolve(t).value] == s
  {
  }

  /** Two tuples are widened into one: the insides are joined by a comma. */
  lemma TupleMerge(t: string, a: string, b: string)
    requires t in {"IN", "VALUES", "COLUMN"}
    requires ')' !in a && '\n' !in a && ')' !in b && '\n' !in b
    ensures Merge(t, "(" + a + ")", "(" + b + ")") == "(" + a + "," + b + ")"
  {
    TupleGroup(a);
    TupleGroup(b);
  }

  /** Widening a held tuple in place rewrites only that slot. */
  lemma InsertTuple(c: Chain, t: string, a: string, b: string)
    requires t in {"IN", "VALUES", "COLUMN"} && Resolve(t).Some? && Resolve(t).value in c
    requires c[Resolve(t).value] == "(" + a + ")"
    requires ')' !in a && '\n' !in a && ')' !in b && '\n' !in b
    ensures Insert(c, t, "(" + b + ")") == c[Resolve(t).value := "(" + a + "," + b + ")"]
  {
    TupleMerge(t, a, b);
  }

  /** Where either side has no group, the new fragment replaces the old. */
  lemma TupleMergeReplaces(t: string, held: string, added: string)
    requires t in {"IN", "VALUES", "COLUMN"}
    requires FirstGroup(held).None? || FirstGroup(added).None?
    ensures Merge(t, held, added) == added
  {
  }

  /** Insertions of types with distinct slots commute, so the chain does
      not depend on the order of calls of distinct clause types. */
  lemma InsertCommutes(c: Chain, t1: string, s1: string, t2: string, s2: string)
    requires Resolve(t1).Some? && Resolve(t2).Some? && Resolve(t1) != Resolve(t2)
    ensures Insert(Insert(c, t1, s1), t2, s2) == Insert(Insert(c, t2, s2), t1, s1)
  {
  }

  // ---- linearisation ----

  /** The order ksort gives the source's keys: priority first (one digit),
      then the name byte by byte. */
  predicate KeyLess(a: SlotKey, b: SlotKey)
    ensures KeyLess(a, b) ==> a != b && a.priority <= b.priority
  {
    a.priority < b.priority || (a.priority == b.priority && StrLess(a.name, b.name))
  }

  lemma KeyLessAsymmetric(a: SlotKey, b: SlotKey)
    ensures KeyLess(a, b) ==> !KeyLess(b, a)
  {
    StrLessAsymmetric(a.name, b.name);
  }

  /** ksort can order every pair of distinct keys. */
  lemma KeyLessTotal(a: SlotKey, b: SlotKey)
    requires a != b
    ensures KeyLess(a, b) || KeyLess(b, a)
  {
    if a.priority == b.priority {
      StrLessTotal(a.name, b.name);
    }
  }

  lemma KeyLessTransitive(a: SlotKey, b: SlotKey, c: SlotKey)
    requires KeyLess(a, b) && KeyLess(b, c)
    ensures KeyLess(a, c)
  {
    if a.priority == b.priority == c.priority {
      StrLessTransitive(a.name, b.name, c.name);
    }
  }

  ghost predicate Ascending(ks: seq<SlotKey>)
  {
    forall i, j :: 0 <= i < j < |ks| ==> KeyLess(ks[i], ks[j])
  }

  /** The slots of INDEX in ascending order. */
  const AllSlots: seq<SlotKey> := [
    SlotKey(1, "SET"), SlotKey(1, "~COLUMN"),
    SlotKey(2, "VALUES"), SlotKey(2, "WHERE"),
    SlotKey(3, "BETWEEN"), SlotKey(3, "IN"), SlotKey(3, "LIKE"), SlotKey(3, "REGEXP"), SlotKey(3, "~MULTIVALUES"),
    SlotKey(4, "GROUP BY"), SlotKey(5, "HAVING"), SlotKey(6, "ORDER BY"), SlotKey(7, "LIMIT")]

  lemma {:induction false} AdjacentAscending(ks: seq<SlotKey>)
    requires forall i :: 0 <= i < |ks| - 1 ==> KeyLess(ks[i], ks[i + 1])
    ensures Ascending(ks)
  {
    if |ks| > 1 {
      AdjacentAscending(ks[1..]);
      forall j | 1 <= j < |ks|
        ensures KeyLess(ks[0], ks[j])
      {
        if j > 1 {
          assert KeyLess(ks[1..][0], ks[1..][j - 1]);
          KeyLessTransitive(ks[0], ks[1], ks[j]);
        }
      }
      forall i, j | 0 <= i < j < |ks|
        ensures KeyLess(ks[i], ks[j])
      {
        if i > 0 {
          assert KeyLess(ks[1..][i - 1], ks[1..][j - 1]);
        }
      }
    }
  }

  lemma AllSlotsAscending()
    ensures Ascending(AllSlots)
  {
    assert StrLess("SET", "~COLUMN");
    assert StrLess("VALUES", "WHERE");
    assert StrLess("BETWEEN", "IN") && StrLess("IN", "LIKE") && StrLess("LIKE", "REGEXP");
    assert StrLess("REGEXP", "~MULTIVALUES");
    AdjacentAscending(AllSlots);
  }

  /** Every entry of AllSlots is a slot of INDEX. */
  lemma AllSlotsAreSlots()
    ensures forall k :: k in AllSlots ==> IsSlot(k)
  {
    forall i | 0 <= i < |AllSlots| ensures IsSlot(AllSlots[i]) {
    }
  }

  /** Every slot of INDEX is an entry of AllSlots. */
  lemma SlotIsListed(k: SlotKey)
    requires IsSlot(k)
    ensures k in AllSlots
  {
    var n := k.name;
    if n == "SET" { assert k == AllSlots[0]; }
    else if n == "~COLUMN" { assert k == AllSlots[1]; }
    else if n == "VALUES" { assert k == AllSlots[2]; }
    else if n == "WHERE" { assert k == AllSlots[3]; }
    else if n == "BETWEEN" { assert k == AllSlots[4]; }
    else if n == "IN" { assert k == AllSlots[5]; }
    else if n == "LIKE" { assert k == AllSlots[6]; }
    else if n == "REGEXP" { assert k == AllSlots[7]; }
    else if n == "~MULTIVALUES" { assert k == AllSlots[8]; }
    else if n == "GROUP BY" { assert k == AllSlots[9]; }
    else if n == "HAVING" { assert k == AllSlots[10]; }
    else if n == "ORDER BY" { assert k == AllSlots[11]; }
    else { assert k == AllSlots[12]; }
  }

  /** AllSlots lists exactly the slots of INDEX, in ksort order. */
  lemma AllSlotsSorted()
    ensures Ascending(AllSlots)
    ensures forall k :: k in AllSlots <==> IsSlot(k)
  {
    AllSlotsAscending();
    AllSlotsAreSlots();
    forall k | IsSlot(k) ensures k in AllSlots {
      SlotIsListed(k);
    }
  }

  /** The keys of c that are slots, in AllSlots order. */
  function SlotsIn(ks: seq<SlotKey>, c: Chain): (r: seq<SlotKey>)
    ensures forall k :: k in r <==> k in ks && k in c
  {
    if |ks| == 0 then []
    else if ks[0] in c then [ks[0]] + SlotsIn(ks[1..], c)
    else SlotsIn(ks[1..], c)
  }

  lemma {:induction false} SlotsInAscending(ks: seq<SlotKey>, c: Chain)
    requires Ascending(ks)
    ensures Ascending(SlotsIn(ks, c))
  {
    if |ks| > 0 {
      assert Ascending(ks[1..]) by {
        forall i, j | 0 <= i < j < |ks[1..]| ensures KeyLess(ks[1..][i], ks[1..][j]) {
          assert KeyLess(ks[i + 1], ks[j + 1]);
        }
      }
      SlotsInAscending(ks[1..], c);
      var rest := SlotsIn(ks[1..], c);
      if ks[0] in c {
        forall j | 0 <= j < |rest| ensures KeyLess(ks[0], rest[j]) {
          assert rest[j] in ks[1..];
          var m :| 0 <= m < |ks[1..]| && ks[1..][m] == rest[j];
          assert KeyLess(ks[0], ks[m + 1]);
        }
        var r := [ks[0]] + rest;
        forall i, j | 0 <= i < j < |r| ensures KeyLess(r[i], r[j]) {
          if i > 0 {
            assert r[i] == rest[i - 1] && r[j] == rest[j - 1];
          }
        }
      }
    }
  }

  /** `ksort`: the keys of the chain in ascending key order. */
  function SortedKeys(c: Chain): (ks: seq<SlotKey>)
    ensures forall k :: k in ks ==> k in c
  {
    SlotsIn(AllSlots, c)
  }

  /** For a chain whose keys are slots, SortedKeys is what ksort yields:
      ascending, and holding every key of the chain. */
  lemma SortedKeysSorted(c: Chain)
    requires forall k :: k in c ==> IsSlot(k)
    ensures Ascending(SortedKeys(c))
    ensures forall k :: k in SortedKeys(c) <==> k in c
  {
    AllSlotsSorted();
    SlotsInAscending(AllSlots, c);
  }

  lemma HeadIsMember(ks: seq<SlotKey>)
    requires |ks| > 0
    ensures ks[0] in ks && ks != []
  {
  }

  /** There is only one ascending enumeration of a set of keys. */
  lemma {:induction false} AscendingUnique(ks1: seq<SlotKey>, ks2: seq<SlotKey>)
    requires Ascending(ks1) && Ascending(ks2)
    requires forall k :: k in ks1 <==> k in ks2
    ensures ks1 == ks2
  {
    if |ks1| == 0 {
      if |ks2| > 0 {
        HeadIsMember(ks2);
        assert false;
      }
    } else {
      assert ks1[0] in ks2;
      assert ks2[0] in ks1;
      if ks1[0] != ks2[0] {
        var i :| 0 <= i < |ks1| && ks1[i] == ks2[0];
        var j :| 0 <= j < |ks2| && ks2[j] == ks1[0];
        assert KeyLess(ks1[0], ks2[0]);
        assert KeyLess(ks2[0], ks1[0]);
        KeyLessAsymmetric(ks1[0], ks2[0]);
      }
      var t1, t2 := ks1[1..], ks2[1..];
      assert Ascending(t1) by {
        forall i, j | 0 <= i < j < |t1| ensures KeyLess(t1[i], t1[j]) {
          assert KeyLess(ks1[i + 1], ks1[j + 1]);
        }
      }
      assert Ascending(t2) by {
        forall i, j | 0 <= i < j < |t2| ensures KeyLess(t2[i], t2[j]) {
          assert KeyLess(ks2[i + 1], ks2[j + 1]);
        }
      }
      forall k ensures k in t1 <==> k in t2 {
        if k in t1 {
          var i :| 0 <= i < |t1| && t1[i] == k;
          assert KeyLess(ks1[0], ks1[i + 1]);
          StrLessIrreflexive(k.name);
          assert k != ks1[0];
          assert k in ks2;
          var j :| 0 <= j < |ks2| && ks2[j] == k;
          assert j != 0;
          assert t2[j - 1] == k;
        }
        if k in t2 {
          var j :| 0 <= j < |t2| && t2[j] == k;
          assert KeyLess(ks2[0], ks2[j + 1]);
          StrLessIrreflexive(k.name);
          assert k != ks2[0];
          assert k in ks1;
          var i :| 0 <= i < |ks1| && ks1[i] == k;
          assert i != 0;
          assert t1[i - 1] == k;
        }
      }
      AscendingUnique(t1, t2);
      assert ks1 == [ks1[0]] + t1 && ks2 == [ks2[0]] + t2;
    }
  }

  /** One entry as sqlConstruct writes it: " NAME VALUE", or " VALUE" for a
      silent name. */
  function Piece(k: SlotKey, v: string): (r: string)
    ensures |r| > |v| && r[0] == ' ' && r[|r| - |v|..] == v
  {
    if |k.name| > 0 && k.name[0] == '~' then " " + v else " " + k.name + " " + v
  }

  /** The entries of ks, in that order. */
  function Rendered(ks: seq<SlotKey>, c: Chain): (r: string)
    requires forall k :: k in ks ==> k in c
    ensures r == "" <==> |ks| == 0
  {
    if |ks| == 0 then "" else Rendered(ks[..|ks| - 1], c) + Piece(ks[|ks| - 1], c[ks[|ks| - 1]])
  }

  /** What sqlConstruct appends to the statement head. */
  function Tail(c: Chain): (r: string)
    ensures c == map[] ==> r == ""
  {
    Rendered(SortedKeys(c), c)
  }

  lemma {:induction false} RenderedLength(ks: seq<SlotKey>, c: Chain)
    requires forall k :: k in ks ==> k in c
    ensures |Rendered(ks, c)| >= |ks|
  {
    if |ks| > 0 {
      RenderedLength(ks[..|ks| - 1], c);
    }
  }

  /** A chain with an entry has a non-empty tail, so each sql() call on it
      makes the statement longer: sql() is not idempotent. */
  lemma TailNonEmpty(c: Chain)
    requires forall k :: k in c ==> IsSlot(k)
    requires |c| > 0
    ensures |Tail(c)| > 0
  {
    var k :| k in c;
    SortedKeysSorted(c);
    RenderedLength(SortedKeys(c), c);
  }

  /** The chain's own invariant: keys are INDEX slots, a column list and a
      first value row come together, and extra rows only follow a first row. */
  ghost predicate WellFormed(c: Chain)
  {
    && (forall k :: k in c ==> IsSlot(k))
    && (ColumnSlot in c <==> ValuesSlot in c)
    && (MultiSlot in c ==> ValuesSlot in c)
  }

  /** Inserting into any slot but the three of values() keeps the invariant. */
  lemma InsertWellFormed(c: Chain, t: string, s: string)
    requires WellFormed(c)
    requires Resolve(t).Some? && Resolve(t).value !in {ColumnSlot, ValuesSlot, MultiSlot}
    ensures WellFormed(Insert(c, t, s))
  {
  }

  /** Linearisation: for any enumeration of the chain's keys in ascending
      key order, the tail is the pieces of the entries in that order. */
  lemma TailInOrder(c: Chain, ks: seq<SlotKey>)
    requires forall k :: k in c ==> IsSlot(k)
    requires Ascending(ks)
    requires forall k :: k in ks <==> k in c
    ensures Tail(c) == Rendered(ks, c)
  {
    SortedKeysSorted(c);
    AscendingUnique(SortedKeys(c), ks);
  }

  /** The tail of a longer enumeration is the tail of its prefix followed by
      the piece of its last key. */
  lemma RenderedStep(head: string, ks: seq<SlotKey>, c: Chain, i: nat)
    requires i < |ks|
    requires forall k :: k in ks ==> k in c
    ensures head + Rendered(ks[..i + 1], c) == head + Rendered(ks[..i], c) + Piece(ks[i], c[ks[i]])
  {
    assert ks[..i + 1][..i] == ks[..i];
  }

  /** `ksort($this->chain)`: the keys of the chain in ascending key order,
      each once. */
  method KeySort(c: Chain) returns (ks: seq<SlotKey>)
    requires forall k :: k in c ==> IsSlot(k)
    ensures Ascending(ks)
    ensures forall k :: k in ks <==> k in c
  {
    ks := SortedKeys(c);
    SortedKeysSorted(c);
  }

  /** The chain after one addElement(t, x) per item x, in order. */
  function InsertEach(c: Chain, t: string, xs: seq<string>): Chain
    requires Resolve(t).Some?
  {
    if |xs| == 0 then c else Insert(InsertEach(c, t, xs[..|xs| - 1]), t, xs[|xs| - 1])
  }

  /** Two calls of a comma-accumulating type leave what one call with
      both fragments, comma-separated, leaves. */
  lemma CommaExtend(c: Chain, t: string, a: string, x: string)
    requires t in {"SET", "ORDER BY", "GROUP BY"}
    ensures Insert(Insert(c, t, a), t, x) == Insert(c, t, a + ", " + x)
  {
    var slot := Resolve(t).value;
    var mid := Insert(c, t, a);
    var v := if slot in c then c[slot] + ", " + (a + ", " + x) else a + ", " + x;
    CommaMerge(mid, t, x);
    if slot in c {
      CommaMerge(c, t, a);
      CommaMerge(c, t, a + ", " + x);
      assert mid[slot] + ", " + x == v;
    }
    assert Insert(c, t, a + ", " + x) == c[slot := v];
    assert Insert(mid, t, x) == mid[slot := v];
    assert mid[slot := v] == c[slot := v];
  }

  /** For the comma-accumulating types, one call with the items joined by
      ", " leaves the chain that one call per item leaves. */
  lemma {:induction false} CommaAccumulates(c: Chain, t: string, xs: seq<string>)
    requires t in {"SET", "ORDER BY", "GROUP BY"}
    requires |xs| > 0
    ensures InsertEach(c, t, xs) == Insert(c, t, Join(xs, ", "))
  {
    if |xs| > 1 {
      var init, x := xs[..|xs| - 1], xs[|xs| - 1];
      CommaAccumulates(c, t, init);
      CommaExtend(c, t, Join(init, ", "), x);
      assert Join(xs, ", ") == Join(init, ", ") + ", " + x;
    } else {
      assert xs[..0] == [];
      assert InsertEach(c, t, xs) == Insert(c, t, xs[0]);
    }
  }
}
