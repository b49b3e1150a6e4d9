/** PHP values as the clause assembler receives them, and the implicit
    conversions the source applies to them (string conversion, truthiness,
    array access). */
module Php {

  datatype Option<+T> = None | Some(value: T)

  /** A PHP scalar. Floats are not modelled. */
  datatype Value = Null | Bool(b: bool) | Int(i: int) | Str(s: string)

  /** A PHP array key. PHP stores decimal-integer strings as integer keys,
      so a `KStr` stands for a key that is not one. */
  datatype Key = KInt(n: int) | KStr(name: string)

  /** One `key => value` pair; a PHP array is the sequence of its pairs in
      iteration order. */
  datatype Entry = Entry(key: Key, value: Value)

  type PhpArray = seq<Entry>

  /** The two foreign functions the assembler calls: `PDO::quote` of the
      connection and PHP's `htmlspecialchars`. Neither is implemented here. */
  datatype Host = Host(quote: string -> string, escapeHtml: string -> string)

  function DigitChar(d: nat): (c: char)
    requires d < 10
    ensures '0' <= c <= '9'
  {
    "0123456789"[d]
  }

  /** The decimal digits of n. */
  function NatText(n: nat): (r: string)
    ensures |r| > 0
    ensures forall i :: 0 <= i < |r| ==> '0' <= r[i] <= '9'
  {
    if n < 10 then [DigitChar(n)] else NatText(n / 10) + [DigitChar(n % 10)]
  }

  /** An integer converted to a string: an optional minus sign, then digits. */
  function IntText(i: int): (r: string)
    ensures |r| > 0
    ensures r[0] == '-' || '0' <= r[0] <= '9'
  {
    if i < 0 then "-" + NatText(-i) else NatText(i)
  }

  /** PHP's conversion of a scalar to a string (`(string) $v`). */
  function ToStr(v: Value): string
  {
    match v
    case Null => ""
    case Bool(b) => if b then "1" else ""
    case Int(i) => IntText(i)
    case Str(s) => s
  }

  /** An array key as it appears when concatenated into a string. */
  function KeyText(k: Key): string
  {
    match k
    case KInt(n) => IntText(n)
    case KStr(s) => s
  }

  /** PHP truthiness (`(bool) $v`); `empty($v)` is its negation. */
  predicate Truthy(v: Value)
  {
    match v
    case Null => false
    case Bool(b) => b
    case Int(i) => i != 0
    case Str(s) => s != "" && s != "0"
  }

  /** `empty($v) && $v !== 0 && $v !== "0"`: the test by which the
      renderers write a value as NULL. Exactly null, false and the empty
      string pass it. */
  predicate IsBlank(v: Value)
    ensures IsBlank(v) <==> v == Null || v == Bool(false) || v == Str("")
  {
    !Truthy(v) && v != Int(0) && v != Str("0")
  }

  /** `$a[$k]`: the value stored under k, or null where PHP reports an
      undefined index. */
  function Lookup(a: PhpArray, k: Key): Value
  {
    if |a| == 0 then Null
    else if a[0].key == k then a[0].value
    else Lookup(a[1..], k)
  }

  /** `$a[0], ..., $a[count($a) - 1]`: the values the source's counted
      `for` loops visit. */
  function Positional(a: PhpArray): (vs: seq<Value>)
    ensures |vs| == |a|
  {
    seq(|a|, i => Lookup(a, KInt(i)))
  }

  /** a is a list: its keys are 0, 1, ..., count - 1, in that order. */
  predicate IsList(a: PhpArray)
  {
    forall i :: 0 <= i < |a| ==> a[i].key == KInt(i)
  }

  /** The first entry under a key is the one `$a[$k]` reads. */
  lemma {:induction false} LookupFirst(a: PhpArray, k: Key, i: nat)
    requires i < |a| && a[i].key == k
    requires forall j :: 0 <= j < i ==> a[j].key != k
    ensures Lookup(a, k) == a[i].value
  {
    if i > 0 {
      LookupFirst(a[1..], k, i - 1);
    }
  }

  /** The array has key k (`array_key_exists`). */
  predicate HasKey(a: PhpArray, k: Key)
  {
    exists j :: 0 <= j < |a| && a[j].key == k
  }

  /** No key occurs twice: every PHP array has this shape. */
  predicate DistinctKeys(a: PhpArray)
  {
    forall i, j :: 0 <= i < j < |a| ==> a[i].key != a[j].key
  }

  /** `$a[$k] = $v`: the value under an existing key is replaced in place,
      a new key is appended. */
  function Store(a: PhpArray, k: Key, v: Value): (r: PhpArray)
    ensures |r| == if HasKey(a, k) then |a| else |a| + 1
  {
    if |a| == 0 then [Entry(k, v)]
    else if a[0].key == k then [Entry(k, v)] + a[1..]
    else
      assert HasKey(a, k) <==> HasKey(a[1..], k) by {
        if HasKey(a, k) {
          var j :| 0 <= j < |a| && a[j].key == k;
          assert a[1..][j - 1].key == k;
        }
        if HasKey(a[1..], k) {
          var j :| 0 <= j < |a[1..]| && a[1..][j].key == k;
          assert a[j + 1].key == k;
        }
      }
      [a[0]] + Store(a[1..], k, v)
  }

  /** After `$a[$k] = $v`, `$a[$k]` reads v and every other key reads what
      it read before. */
  lemma {:induction false} LookupStore(a: PhpArray, k: Key, v: Value, k2: Key)
    ensures Lookup(Store(a, k, v), k2) == if k2 == k then v else Lookup(a, k2)
  {
    if |a| > 0 && a[0].key != k {
      LookupStore(a[1..], k, v, k2);
      assert Store(a, k, v)[1..] == Store(a[1..], k, v);
    } else if |a| > 0 {
      assert Store(a, k, v)[1..] == a[1..];
    }
  }

  /** `DB_Element::is_assoc`: true for the empty array and for an array
      with a key outside 0 .. count - 1 (array_diff_key against the list
      of positions is non-empty). */
  predicate IsAssoc(a: PhpArray)
    ensures |a| == 0 ==> IsAssoc(a)
    ensures IsList(a) && |a| > 0 ==> !IsAssoc(a)
    ensures (exists j :: 0 <= j < |a| && a[j].key.KStr?) ==> IsAssoc(a)
  {
    |a| == 0 || exists j :: 0 <= j < |a| && !(a[j].key.KInt? && 0 <= a[j].key.n < |a|)
  }
}
