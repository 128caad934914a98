/**
 * Loosely-typed nested records as the mapper receives them (parsed JSON),
 * the error kinds the mapper raises, and the few string operations the
 * identification path needs.
 */
module RawData {

  /** A parsed JSON value: None, bool, int, str, dict or list. */
  datatype Raw =
    | RNull
    | RBool(b: bool)
    | RInt(i: int)
    | RStr(s: string)
    | RObj(entries: map<string, Raw>)
    | RArr(items: seq<Raw>)

  /** The exceptions the mapper raises, by kind. */
  datatype Error =
    | ValidationError    // unknown keys, or a schema check that fails
    | UnsupportedType    // no alternative of a union accepts a value
    | WrongType          // a list field receives a non-list, or no alternative fits an element
    | ValueError         // a field whose parse or merge produced no value; a path without ':'
    | KeyError           // runtime schema extension over an existing (or missing) name
    | TypeError          // an illegal type hint
    | RecursionError     // a list or union nested where the hint rules forbid it
    | AttributeError     // a non-dict where a dict is expected, an undeclared key field
    | IndexError         // a list hint without a type argument
    | AssertionError     // a failing `assert`
    | ZeroDivisionError  // the similarity check over an empty table
    | NameError          // a forward reference to a name not bound yet

  datatype Option<+T> = None | Some(value: T)

  datatype Result<+T> = Ok(value: T) | Err(error: Error)

  /** The result of a check that only accepts or raises. */
  datatype Outcome = Pass | Fail(error: Error)

  /** Python's truth value of a raw value, as `bool(v)` computes it. */
  predicate Truthy(v: Raw)
  {
    match v
    case RNull => false
    case RBool(b) => b
    case RInt(i) => i != 0
    case RStr(s) => s != ""
    case RObj(m) => m != map[]
    case RArr(xs) => xs != []
  }

  /** `isinstance(v, dict)` */
  predicate IsDict(v: Raw) { v.RObj? }

  /** The keys of a dict value (empty for any other value). */
  function KeysOf(v: Raw): set<string>
  {
    if v.RObj? then v.entries.Keys else {}
  }

  // ---------------------------------------------------------------------
  // Strings: `str.split(sep)` and `str.rsplit(sep, 1)`

  /** Joins parts with a separator, the inverse of `Split`. */
  function Join(parts: seq<string>, sep: char): string
  {
    if |parts| == 0 then ""
    else if |parts| == 1 then parts[0]
    else parts[0] + [sep] + Join(parts[1..], sep)
  }

  /** Position of the first occurrence of `c` in `s`. */
  function IndexOf(s: string, c: char): (i: nat)
    requires c in s
    ensures i < |s| && s[i] == c && c !in s[..i]
  {
    if s[0] == c then 0
    else
      assert c in s[1..] by { var k :| 0 <= k < |s| && s[k] == c; assert s[1..][k - 1] == c; }
      var j := IndexOf(s[1..], c);
      assert s[..j + 1] == [s[0]] + s[1..][..j];
      j + 1
  }

  /** `s.split(sep)`: every part free of `sep`, and joining them gives `s` back. */
  function Split(s: string, sep: char): (parts: seq<string>)
    ensures |parts| >= 1
    ensures forall k :: 0 <= k < |parts| ==> sep !in parts[k]
    ensures Join(parts, sep) == s
    decreases |s|
  {
    if sep !in s then [s]
    else
      var i := IndexOf(s, sep);
      var rest := Split(s[i + 1..], sep);
      assert s == s[..i] + [sep] + s[i + 1..];
      [s[..i]] + rest
  }

  /** Splitting the joined parts gives them back when no part holds the separator. */
  lemma {:induction false} SplitJoin(parts: seq<string>, sep: char)
    requires |parts| >= 1
    requires forall k :: 0 <= k < |parts| ==> sep !in parts[k]
    ensures Split(Join(parts, sep), sep) == parts
    decreases |parts|
  {
    if |parts| > 1 {
      var s := Join(parts, sep);
      var rest := Join(parts[1..], sep);
      assert s == parts[0] + [sep] + rest;
      assert sep in s by { assert s[|parts[0]|] == sep; }
      var i := IndexOf(s, sep);
      assert i == |parts[0]|;
      assert s[..i] == parts[0];
      assert s[i + 1..] == rest;
      SplitJoin(parts[1..], sep);
    }
  }

  /** Position of the last occurrence of `c` in `s`. */
  function LastIndexOf(s: string, c: char): (i: nat)
    requires c in s
    ensures i < |s| && s[i] == c && c !in s[i + 1..]
    decreases |s|
  {
    if s[|s| - 1] == c then |s| - 1
    else
      assert c in s[..|s| - 1] by {
        var k :| 0 <= k < |s| && s[k] == c;
        assert k < |s| - 1 && s[..|s| - 1][k] == c;
      }
      var j := LastIndexOf(s[..|s| - 1], c);
      assert s[j + 1..] == s[..|s| - 1][j + 1..] + [s[|s| - 1]];
      j
  }

  /**
   * `s.rsplit(sep, 1)` unpacked into two names: the part before the last
   * separator and the part after it; None when the unpacking would fail.
   */
  function RSplitLast(s: string, sep: char): (r: Option<(string, string)>)
    ensures r.None? <==> sep !in s
    ensures r.Some? ==> s == r.value.0 + [sep] + r.value.1 && sep !in r.value.1
  {
    if sep !in s then None
    else
      var i := LastIndexOf(s, sep);
      assert s == s[..i] + [sep] + s[i + 1..];
      Some((s[..i], s[i + 1..]))
  }

  /** The split at the last separator is the only one whose right part has no separator. */
  lemma SplitAtLastUnique(a: string, b: string, a2: string, b2: string, c: char)
    requires a + [c] + b == a2 + [c] + b2
    requires c !in b && c !in b2
    ensures a == a2 && b == b2
  {
    var s := a + [c] + b;
    assert forall k :: |a| < k < |s| ==> s[k] == b[k - |a| - 1];
    assert forall k :: |a2| < k < |s| ==> s[k] == b2[k - |a2| - 1];
    assert s[|a|] == c && s[|a2|] == c;
    assert |a| == |a2|;
    assert a == s[..|a|] == a2;
    assert b == s[|a| + 1..] == b2;
  }

  // ---------------------------------------------------------------------
  // Decimal text of integers: `str(i)` and `int(s)`

  function DigitChar(d: nat): char
    requires d < 10
  {
    "0123456789"[d]
  }

  function DigitValue(c: char): Option<nat>
  {
    if '0' <= c <= '9' then Some((c as int - '0' as int) as nat) else None
  }

  /** Decimal digits of a natural number, most significant first. */
  function NatDigits(n: nat): string
    decreases n
  {
    if n < 10 then [DigitChar(n)] else NatDigits(n / 10) + [DigitChar(n % 10)]
  }

  /** `str(i)` for an int. */
  function IntToText(i: int): string
  {
    if i < 0 then "-" + NatDigits(-i) else NatDigits(i)
  }

  /** Value of a non-empty run of decimal digits. */
  function ParseDigits(s: string): Option<nat>
    decreases |s|
  {
    if |s| == 0 then None
    else
      match DigitValue(s[|s| - 1])
      case None => None
      case Some(d) =>
        if |s| == 1 then Some(d)
        else
          match ParseDigits(s[..|s| - 1])
          case None => None
          case Some(high) => Some(high * 10 + d)
  }

  /** `int(s)` for text made of an optional sign and decimal digits. */
  function TextToInt(s: string): Option<int>
  {
    if |s| > 0 && s[0] == '-' then
      match ParseDigits(s[1..]) case None => None case Some(n) => Some(-(n as int))
    else if |s| > 0 && s[0] == '+' then
      match ParseDigits(s[1..]) case None => None case Some(n) => Some(n)
    else
      match ParseDigits(s) case None => None case Some(n) => Some(n)
  }

  lemma {:induction false} ParseNatDigits(n: nat)
    ensures ParseDigits(NatDigits(n)) == Some(n)
    decreases n
  {
    if n >= 10 {
      ParseNatDigits(n / 10);
      var s := NatDigits(n);
      assert s[..|s| - 1] == NatDigits(n / 10);
    }
  }

  /** Reading back the decimal text of any integer gives the integer. */
  lemma {:induction false} TextToIntRoundTrip(i: int)
    ensures TextToInt(IntToText(i)) == Some(i)
  {
    if i < 0 { NegativeRoundTrip(i); } else { NonNegativeRoundTrip(i); }
  }

  lemma {:induction false} NegativeRoundTrip(i: int)
    requires i < 0
    ensures TextToInt(IntToText(i)) == Some(i)
  {
    var n: nat := -i;
    var t := IntToText(i);
    assert t == "-" + NatDigits(n);
    ParseNatDigits(n);
    assert t[1..] == NatDigits(n);
    assert ParseDigits(t[1..]) == Some(n);
  }

  lemma {:induction false} NonNegativeRoundTrip(i: int)
    requires i >= 0
    ensures TextToInt(IntToText(i)) == Some(i)
  {
    var t := IntToText(i);
    NatDigitsAreDigits(i);
    assert t == NatDigits(i);
    assert t[0] != '-' && t[0] != '+';
    ParseNatDigits(i);
  }

  lemma {:induction false} NatDigitsAreDigits(n: nat)
    ensures |NatDigits(n)| >= 1
    ensures forall k :: 0 <= k < |NatDigits(n)| ==> '0' <= NatDigits(n)[k] <= '9'
    decreases n
  {
    if n >= 10 { NatDigitsAreDigits(n / 10); }
  }

  // ---------------------------------------------------------------------
  // Python's `==` on parsed values

  /** The number a bool or an int stands for: `True == 1` in Python. */
  function Number(a: Raw): Option<int>
  {
    match a
    case RBool(b) => Some(if b then 1 else 0)
    case RInt(i) => Some(i)
    case _ => None
  }

  /** Python's `==` on parsed JSON values: bools and ints as numbers, containers item by item. */
  function PyEq(a: Raw, b: Raw): bool
    decreases a
  {
    if a.RObj? && b.RObj? then
      a.entries.Keys == b.entries.Keys && forall k :: k in a.entries ==> PyEq(a.entries[k], b.entries[k])
    else if a.RArr? && b.RArr? then
      |a.items| == |b.items| && forall i :: 0 <= i < |a.items| ==> PyEq(a.items[i], b.items[i])
    else if a.RNull? || b.RNull? then a == b
    else if a.RStr? || b.RStr? then a == b
    else Number(a).Some? && Number(a) == Number(b)
  }

  lemma {:induction false} PyEqReflexive(a: Raw)
    ensures PyEq(a, a)
    decreases a
  {
    match a
    case RObj(m) =>
      forall k | k in m
        ensures PyEq(m[k], m[k])
      {
        PyEqReflexive(m[k]);
      }
    case RArr(xs) =>
      forall i | 0 <= i < |xs|
        ensures PyEq(xs[i], xs[i])
      {
        PyEqReflexive(xs[i]);
      }
    case _ =>
  }

  lemma {:induction false} PyEqSymmetric(a: Raw, b: Raw)
    ensures PyEq(a, b) == PyEq(b, a)
    decreases a
  {
    if a.RObj? && b.RObj? {
      forall k | k in a.entries && k in b.entries
        ensures PyEq(a.entries[k], b.entries[k]) == PyEq(b.entries[k], a.entries[k])
      {
        PyEqSymmetric(a.entries[k], b.entries[k]);
      }
    } else if a.RArr? && b.RArr? && |a.items| == |b.items| {
      forall i | 0 <= i < |a.items|
        ensures PyEq(a.items[i], b.items[i]) == PyEq(b.items[i], a.items[i])
      {
        PyEqSymmetric(a.items[i], b.items[i]);
      }
    }
  }

  /** `True == 1` and `False == 0`, but a str never equals a number. */
  lemma BoolIntEquality()
    ensures PyEq(RBool(true), RInt(1)) && PyEq(RInt(0), RBool(false))
    ensures !PyEq(RStr("1"), RInt(1)) && !PyEq(RBool(true), RInt(2))
  {
  }
}
