/** The parts of PHP's value semantics that the API relies on: the values a
    decoded JSON request body holds, the explicit casts, the coercive passing of
    arguments to typed parameters (the source files do not declare
    strict_types), `empty()`, array lookup with `??`, and the ASCII string
    functions strtolower, strtoupper and ucfirst. */
module Php {

  datatype Option<+T> = None | Some(value: T)

  /** A PHP value as json_decode(..., true) produces it. */
  datatype Value =
    | Null
    | Bool(b: bool)
    | Int(i: int)
    | Str(s: string)
    | Arr(items: seq<Value>)

  /** A decoded top-level PHP array, as its key/value pairs in insertion order.
      Integer keys of a JSON list appear as their decimal strings, which is
      how PHP looks them up. */
  type PhpArray = seq<(string, Value)>

  /** What Request::toArray() yields: Malformed when it throws (an empty body,
      text that is not JSON, or JSON that does not decode to an array). */
  datatype RequestBody = Malformed | Decoded(data: PhpArray)

  /** The outcome of passing a value to a typed parameter: the value the
      callee receives, or the TypeError PHP raises at the call. */
  datatype Arg<+T> = Passed(value: T) | TypeError

  // ---------------------------------------------------------------------
  // Arrays

  /** `$a[$key]` when the key is set. A later pair wins over an earlier one
      with the same key, as json_decode does with duplicate object keys. */
  function Lookup(a: PhpArray, key: string): (r: Option<Value>)
    ensures r.None? <==> forall i :: 0 <= i < |a| ==> a[i].0 != key
    ensures r.Some? ==> exists i :: 0 <= i < |a| && a[i] == (key, r.value) &&
                          forall j :: i < j < |a| ==> a[j].0 != key
    decreases |a|
  {
    if a == [] then None
    else if a[|a| - 1].0 == key then Some(a[|a| - 1].1)
    else
      var prefix := a[..|a| - 1];
      var r := Lookup(prefix, key);
      assert forall i :: 0 <= i < |prefix| ==> prefix[i] == a[i];
      assert a == prefix + [a[|a| - 1]];
      r
  }

  predicate DistinctKeys(a: PhpArray)
  {
    forall i, j :: 0 <= i < j < |a| ==> a[i].0 != a[j].0
  }

  /** The keys of a, each once, in the order of their first occurrence
      (the order is stated by KeysInFirstOccurrenceOrder). */
  function KeysInOrder(a: PhpArray): (r: seq<string>)
    ensures forall i, j :: 0 <= i < j < |r| ==> r[i] != r[j]
    ensures forall k :: k in r <==> exists i :: 0 <= i < |a| && a[i].0 == k
    decreases |a|
  {
    if a == [] then []
    else
      var prefix := a[..|a| - 1];
      var r := KeysInOrder(prefix);
      assert forall i :: 0 <= i < |prefix| ==> prefix[i] == a[i];
      if a[|a| - 1].0 in r then r else r + [a[|a| - 1].0]
  }

  /** Each key of ks occurs in the pairs before every occurrence of any key
      that follows it in ks. */
  predicate FirstOccurrenceOrder(a: PhpArray, ks: seq<string>)
  {
    forall i, j, q :: 0 <= i < j < |ks| && 0 <= q < |a| && a[q].0 == ks[j] ==>
      exists p :: 0 <= p < q && a[p].0 == ks[i]
  }

  /** KeysInOrder lists the keys in the order of their first occurrence. */
  lemma {:induction false} KeysInFirstOccurrenceOrder(a: PhpArray)
    ensures FirstOccurrenceOrder(a, KeysInOrder(a))
    decreases |a|
  {
    if a != [] {
      var prefix := a[..|a| - 1];
      var last := a[|a| - 1].0;
      KeysInFirstOccurrenceOrder(prefix);
      var ks := KeysInOrder(prefix);
      assert FirstOccurrenceOrder(prefix, ks);
      var r := KeysInOrder(a);
      assert r == if last in ks then ks else ks + [last];
      assert forall i :: 0 <= i < |prefix| ==> a[i] == prefix[i];
      forall i, j, q | 0 <= i < j < |r| && 0 <= q < |a| && a[q].0 == r[j]
        ensures exists p :: 0 <= p < q && a[p].0 == r[i]
      {
        assert r[i] == ks[i];
        assert r[i] in ks;
        var p :| 0 <= p < |prefix| && prefix[p].0 == r[i];
        if q < |prefix| {
          // The key at q is already in ks, so r[j] is too, and the order of ks covers it.
          assert prefix[q].0 in ks;
          assert j < |ks| && r[j] == ks[j];
          assert 0 <= i < j < |ks| && 0 <= q < |prefix| && prefix[q].0 == ks[j];
          var p' :| 0 <= p' < q && prefix[p'].0 == ks[i];
          assert a[p'].0 == r[i];
        } else {
          assert a[p].0 == r[i];
        }
      }
    }
  }

  /** The PHP array the pairs stand for: one entry per key, at the key's
      first position, holding the key's last value (a repeated key updates
      the entry in place). This is what `foreach` visits. */
  function ArrayEntries(a: PhpArray): (r: PhpArray)
    ensures DistinctKeys(r)
    ensures |r| == |KeysInOrder(a)|
    ensures forall i :: 0 <= i < |r| ==> r[i].0 == KeysInOrder(a)[i] && Lookup(a, r[i].0) == Some(r[i].1)
  {
    var ks := KeysInOrder(a);
    seq(|ks|, i requires 0 <= i < |ks| => (ks[i], LookupOfKey(a, ks, i)))
  }

  /** The entries come in the order in which their keys first occur. */
  lemma ArrayEntriesInFirstOccurrenceOrder(a: PhpArray)
    ensures forall i, j, q :: 0 <= i < j < |ArrayEntries(a)| && 0 <= q < |a| && a[q].0 == ArrayEntries(a)[j].0 ==>
              exists p :: 0 <= p < q && a[p].0 == ArrayEntries(a)[i].0
  {
    KeysInFirstOccurrenceOrder(a);
    var r := ArrayEntries(a);
    var ks := KeysInOrder(a);
    assert FirstOccurrenceOrder(a, ks);
    forall i, j, q | 0 <= i < j < |r| && 0 <= q < |a| && a[q].0 == r[j].0
      ensures exists p :: 0 <= p < q && a[p].0 == r[i].0
    {
      assert r[i].0 == ks[i] && r[j].0 == ks[j];
      var p :| 0 <= p < q && a[p].0 == ks[i];
    }
  }

  function LookupOfKey(a: PhpArray, ks: seq<string>, i: int): (v: Value)
    requires ks == KeysInOrder(a) && 0 <= i < |ks|
    ensures Lookup(a, ks[i]) == Some(v)
  {
    assert ks[i] in ks;
    Lookup(a, ks[i]).value
  }

  /** Reading a key gives the same value in the pairs and in the array they
      stand for. */
  lemma ArrayEntriesLookup(a: PhpArray, key: string)
    ensures Lookup(ArrayEntries(a), key) == Lookup(a, key)
  {
    var r := ArrayEntries(a);
    var ks := KeysInOrder(a);
    if key in ks {
      var i :| 0 <= i < |ks| && ks[i] == key;
      assert r[i].0 == key;
      var v := Lookup(r, key).value;
      var j :| 0 <= j < |r| && r[j] == (key, v) && forall m :: j < m < |r| ==> r[m].0 != key;
      assert i == j;
    } else {
      assert forall i :: 0 <= i < |r| ==> r[i].0 != key;
    }
  }

  lemma {:induction false} KeysOfDistinct(a: PhpArray)
    requires DistinctKeys(a)
    ensures |KeysInOrder(a)| == |a|
    ensures forall i :: 0 <= i < |a| ==> KeysInOrder(a)[i] == a[i].0
    decreases |a|
  {
    if a != [] {
      var prefix := a[..|a| - 1];
      KeysOfDistinct(prefix);
      var last := a[|a| - 1].0;
      forall i | 0 <= i < |prefix|
        ensures prefix[i].0 != last
      {
        assert prefix[i] == a[i];
      }
    }
  }

  /** Pairs whose keys are distinct already are the array they stand for. */
  lemma ArrayEntriesOfDistinct(a: PhpArray)
    requires DistinctKeys(a)
    ensures ArrayEntries(a) == a
  {
    KeysOfDistinct(a);
    var r := ArrayEntries(a);
    assert |r| == |a|;
    forall i | 0 <= i < |a|
      ensures r[i] == a[i]
    {
      LookupOfDistinct(a, i);
      assert r[i].0 == a[i].0;
    }
  }

  /** With distinct keys, each pair is the one its key reads. */
  lemma LookupOfDistinct(a: PhpArray, i: int)
    requires DistinctKeys(a) && 0 <= i < |a|
    ensures Lookup(a, a[i].0) == Some(a[i].1)
  {
    var v := Lookup(a, a[i].0).value;
    var j :| 0 <= j < |a| && a[j] == (a[i].0, v) && forall m :: j < m < |a| ==> a[m].0 != a[i].0;
    assert i == j;
  }

  /** `$a[$key] ?? $default`: the default when the key is unset or null. */
  function Coalesce(a: PhpArray, key: string, default: Value): Value
  {
    match Lookup(a, key)
    case Some(v) => if v.Null? then default else v
    case None => default
  }

  // ---------------------------------------------------------------------
  // Strings (byte-for-byte on ASCII letters, as in PHP 8.2 and later)

  function LowerChar(c: char): char
  {
    if 'A' <= c <= 'Z' then (c as int + 32) as char else c
  }

  function UpperChar(c: char): char
  {
    if 'a' <= c <= 'z' then (c as int - 32) as char else c
  }

  /** strtolower */
  function Lower(s: string): (r: string)
    ensures |r| == |s|
    ensures forall i :: 0 <= i < |s| ==> r[i] == LowerChar(s[i])
  {
    if s == [] then [] else [LowerChar(s[0])] + Lower(s[1..])
  }

  /** strtoupper */
  function Upper(s: string): (r: string)
    ensures |r| == |s|
    ensures forall i :: 0 <= i < |s| ==> r[i] == UpperChar(s[i])
  {
    if s == [] then [] else [UpperChar(s[0])] + Upper(s[1..])
  }

  /** ucfirst */
  function Ucfirst(s: string): string
  {
    if s == [] then s else [UpperChar(s[0])] + s[1..]
  }

  lemma LowerAppend(s: string, t: string)
    ensures Lower(s + t) == Lower(s) + Lower(t)
  {
    assert forall i :: 0 <= i < |s + t| ==> Lower(s + t)[i] == (Lower(s) + Lower(t))[i];
  }

  lemma LowerOfUcfirst(s: string)
    ensures Lower(Ucfirst(s)) == Lower(s)
  {
    if s != [] {
      assert forall i :: 0 <= i < |s| ==> Lower(Ucfirst(s))[i] == Lower(s)[i];
    }
  }

  // ---------------------------------------------------------------------
  // Integers and their decimal strings

  predicate IsDigit(c: char) { '0' <= c <= '9' }

  predicate AllDigits(s: string) { forall i :: 0 <= i < |s| ==> IsDigit(s[i]) }

  function DigitChar(d: nat): (c: char)
    requires d < 10
    ensures IsDigit(c)
  {
    ('0' as int + d) as char
  }

  function DigitValue(c: char): nat
    requires IsDigit(c)
  {
    c as int - '0' as int
  }

  /** The decimal digits of n, without leading zeros. */
  function Digits(n: nat): (r: string)
    ensures r != [] && AllDigits(r)
    decreases n
  {
    if n < 10 then [DigitChar(n)] else Digits(n / 10) + [DigitChar(n % 10)]
  }

  /** `(string) $i` for an integer $i. */
  function DecimalString(i: int): string
  {
    if i < 0 then "-" + Digits(-i) else Digits(i)
  }

  /** The whitespace that PHP's integer conversion skips at the front. */
  predicate IsSpace(c: char)
  {
    c == ' ' || c == '\t' || c == '\n' || c == '\r' || c == '\U{000B}' || c == '\U{000C}'
  }

  function SkipSpace(s: string): string
  {
    if s != [] && IsSpace(s[0]) then SkipSpace(s[1..]) else s
  }

  /** The longest prefix of s made of decimal digits. */
  function DigitPrefix(s: string): (r: string)
    ensures AllDigits(r) && |r| <= |s| && r == s[..|r|]
    ensures |r| == |s| || !IsDigit(s[|r|])
  {
    if s != [] && IsDigit(s[0]) then [s[0]] + DigitPrefix(s[1..]) else []
  }

  function DigitsValue(s: string): nat
    requires AllDigits(s)
  {
    if s == [] then 0 else 10 * DigitsValue(s[..|s| - 1]) + DigitValue(s[|s| - 1])
  }

  /** `(int) $s` for a string: leading whitespace, an optional sign, then the
      longest run of decimal digits; anything else gives 0. */
  function IntOfString(s: string): int
  {
    var t := SkipSpace(s);
    if t != [] && t[0] == '-' then -(DigitsValue(DigitPrefix(t[1..])) as int)
    else if t != [] && t[0] == '+' then DigitsValue(DigitPrefix(t[1..]))
    else DigitsValue(DigitPrefix(t))
  }

  lemma {:induction false} DigitPrefixOfDigits(s: string)
    requires AllDigits(s)
    ensures DigitPrefix(s) == s
  {
    if s != [] {
      DigitPrefixOfDigits(s[1..]);
    }
  }

  lemma {:induction false} DigitsValueOfDigits(n: nat)
    ensures DigitsValue(Digits(n)) == n
    decreases n
  {
    if n >= 10 {
      DigitsValueOfDigits(n / 10);
      var d := Digits(n);
      assert d[..|d| - 1] == Digits(n / 10);
    }
  }

  /** Casting an integer to a string and back gives the integer. */
  lemma IntOfDecimalString(i: int)
    ensures IntOfString(DecimalString(i)) == i
  {
    var t := DecimalString(i);
    assert SkipSpace(t) == t;
    if i < 0 {
      assert t[1..] == Digits(-i);
      DigitPrefixOfDigits(Digits(-i));
      DigitsValueOfDigits(-i);
    } else {
      DigitPrefixOfDigits(Digits(i));
      DigitsValueOfDigits(i);
    }
  }

  /** A decimal string is made of digits after an optional minus sign. */
  lemma DecimalStringChars(i: int)
    ensures |DecimalString(i)| > 0
    ensures forall k :: 0 <= k < |DecimalString(i)| ==>
              IsDigit(DecimalString(i)[k]) || (k == 0 && DecimalString(i)[k] == '-')
  {
  }

  // ---------------------------------------------------------------------
  // Casts

  /** `(string) $v` (an array gives "Array", with a warning). */
  function StringCast(v: Value): string
  {
    match v
    case Null => ""
    case Bool(b) => if b then "1" else ""
    case Int(i) => DecimalString(i)
    case Str(s) => s
    case Arr(_) => "Array"
  }

  /** `(int) $v` */
  function IntCast(v: Value): int
  {
    match v
    case Null => 0
    case Bool(b) => if b then 1 else 0
    case Int(i) => i
    case Str(s) => IntOfString(s)
    case Arr(items) => if items == [] then 0 else 1
  }

  /** `(bool) $v` */
  function BoolCast(v: Value): bool
  {
    match v
    case Null => false
    case Bool(b) => b
    case Int(i) => i != 0
    case Str(s) => s != "" && s != "0"
    case Arr(items) => items != []
  }

  /** `empty($v)` for a variable that is set. */
  predicate IsEmpty(v: Value)
  {
    v == Null || v == Bool(false) || v == Int(0) || v == Str("") || v == Str("0") || v == Arr([])
  }

  /** `empty()` is the negation of the boolean cast. */
  lemma EmptyIsNotTruthy(v: Value)
    ensures IsEmpty(v) <==> !BoolCast(v)
  {
  }

  // ---------------------------------------------------------------------
  // Coercive argument passing to scalar parameters

  /** Passing v to a `string` parameter: scalars are converted, null and
      arrays raise a TypeError. */
  function StringParam(v: Value): Arg<string>
  {
    match v
    case Null => TypeError
    case Arr(_) => TypeError
    case _ => Passed(StringCast(v))
  }

  /** Passing v to a `?string` parameter. */
  function NullableStringParam(v: Value): Arg<Option<string>>
  {
    match v
    case Null => Passed(None)
    case Arr(_) => TypeError
    case _ => Passed(Some(StringCast(v)))
  }

  /** Passing v to a `bool` parameter. */
  function BoolParam(v: Value): Arg<bool>
  {
    match v
    case Null => TypeError
    case Arr(_) => TypeError
    case _ => Passed(BoolCast(v))
  }
}
