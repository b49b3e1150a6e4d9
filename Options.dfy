/** `DB_Element::extendOptions`: the options argument of where() and
    values() completed from a table of defaults. */
module Options {
  import opened Php

  /** The `$options` a caller passes: nothing, one flag name, or an array.
      `false` is `Absent` too: the first write into it makes it an array. */
  datatype Arg = Absent | Flag(name: string) | Given(a: PhpArray)

  /** The defaults of where(). */
  const WhereDefaults: PhpArray :=
    [Entry(KStr("secure"), Bool(false)), Entry(KStr("operator"), Str("AND"))]

  /** The defaults of values(). */
  const ValuesDefaults: PhpArray :=
    [Entry(KStr("secure"), Bool(false)), Entry(KStr("merge"), Bool(false))]

  /** What `$options[$k]` reads once the options are extended, for a key k
      of the defaults: a flag name switches on the boolean default it names;
      an array keeps its own value unless that is unset (absent or null). */
  function OptionValue(defaults: PhpArray, options: Arg, k: Key): (r: Value)
    ensures r == Null ==> Lookup(defaults, k) == Null
    ensures options.Given? && Lookup(options.a, k) != Null ==> r == Lookup(options.a, k)
    ensures options.Absent? ==> r == Lookup(defaults, k)
  {
    match options
    case Absent => Lookup(defaults, k)
    case Flag(name) =>
      if k == KStr(name) && Lookup(defaults, k).Bool? then Bool(true) else Lookup(defaults, k)
    case Given(a) =>
      if Lookup(a, k) == Null then Lookup(defaults, k) else Lookup(a, k)
  }

  /** Some key of the first n defaults is k. */
  predicate AmongFirst(defaults: PhpArray, n: nat, k: Key)
    requires n <= |defaults|
  {
    exists j :: 0 <= j < n && defaults[j].key == k
  }

  /** What the array argument reads under k once the first n defaults
      have been applied. */
  function Extended(defaults: PhpArray, n: nat, a: PhpArray, k: Key): Value
    requires n <= |defaults|
  {
    if AmongFirst(defaults, n, k) && Lookup(a, k) == Null then Lookup(defaults, k) else Lookup(a, k)
  }

  /** extendOptions($default, $options): returns the extended options.
      Every key of the defaults reads its OptionValue; an array argument
      keeps what it holds under every other key. */
  method ExtendOptions(defaults: PhpArray, options: Arg) returns (r: PhpArray)
    requires DistinctKeys(defaults)
    ensures forall k :: HasKey(defaults, k) ==> Lookup(r, k) == OptionValue(defaults, options, k)
    ensures options.Given? ==> forall k :: !HasKey(defaults, k) ==> Lookup(r, k) == Lookup(options.a, k)
    ensures !options.Given? ==> forall k :: !HasKey(defaults, k) ==> Lookup(r, k) == Null
  {
    match options {
      case Absent =>
        r := defaults;
        forall k | !HasKey(defaults, k) ensures Lookup(r, k) == Null {
          LookupMissing(defaults, k);
        }
      case Flag(name) =>
        r := defaults;
        if Lookup(r, KStr(name)).Bool? {
          LookupPresent(defaults, KStr(name));
          r := Store(r, KStr(name), Bool(true));
        }
        forall k ensures Lookup(r, k) == OptionValue(defaults, options, k) {
          LookupStore(defaults, KStr(name), Bool(true), k);
        }
        forall k | !HasKey(defaults, k) ensures Lookup(r, k) == Null {
          LookupMissing(defaults, k);
        }
      case Given(a) =>
        r := a;
        var i := 0;
        while i < |defaults|
          invariant 0 <= i <= |defaults|
          invariant forall k :: Lookup(r, k) == Extended(defaults, i, a, k)
        {
          var e := defaults[i];
          LookupFirst(defaults, e.key, i);
          ghost var prev := r;
          if Lookup(r, e.key) == Null {
            r := Store(r, e.key, e.value);
          }
          forall k ensures Lookup(r, k) == Extended(defaults, i + 1, a, k) {
            LookupStore(prev, e.key, e.value, k);
            if k == e.key {
              assert !AmongFirst(defaults, i, k);
              assert AmongFirst(defaults, i + 1, k);
            } else {
              assert AmongFirst(defaults, i + 1, k) ==> AmongFirst(defaults, i, k);
            }
          }
          i := i + 1;
        }
        forall k | !HasKey(defaults, k) ensures Lookup(r, k) == Lookup(a, k) {
          assert !AmongFirst(defaults, |defaults|, k);
        }
    }
  }

  /** A key the array lacks reads null. */
  lemma {:induction false} LookupMissing(a: PhpArray, k: Key)
    requires !HasKey(a, k)
    ensures Lookup(a, k) == Null
  {
    if |a| > 0 {
      assert a[0].key != k;
      forall j | 0 <= j < |a[1..]|
        ensures a[1..][j].key != k
      {
        assert a[1..][j] == a[j + 1];
      }
      LookupMissing(a[1..], k);
    }
  }

  /** A key that reads a non-null value is a key of the array. */
  lemma LookupPresent(a: PhpArray, k: Key)
    requires Lookup(a, k) != Null
    ensures HasKey(a, k)
  {
    if !HasKey(a, k) {
      LookupMissing(a, k);
    }
  }
}
