/** Values shared by every part of the model: byte strings, optional values,
    in-order concatenation and the few string operations the stores use. */
module Common {

  /** Raw file bytes (a Blob, a Buffer, a FileStream's contents). */
  type Bytes = seq<bv8>

  /** JavaScript's `undefined`/`null` and C#'s `null` become None. */
  datatype Option<+T> = None | Some(value: T)

  /** Concatenation of byte strings in sequence order; defined from the end,
      so that appending one more part is one unfolding. */
  function Flatten(parts: seq<Bytes>): (r: Bytes)
    ensures |r| == TotalLength(parts)
  {
    if parts == [] then [] else Flatten(parts[..|parts| - 1]) + parts[|parts| - 1]
  }

  /** Sum of the lengths of the parts. */
  function TotalLength(parts: seq<Bytes>): nat
  {
    if parts == [] then 0 else TotalLength(parts[..|parts| - 1]) + |parts[|parts| - 1]|
  }

  lemma FlattenAppend(parts: seq<Bytes>, last: Bytes)
    ensures Flatten(parts + [last]) == Flatten(parts) + last
  {
    assert (parts + [last])[..|parts|] == parts;
  }

  /** Concatenation distributes over splitting the parts at any point. */
  lemma {:induction false} FlattenSplit(parts: seq<Bytes>, k: nat)
    requires k <= |parts|
    ensures Flatten(parts) == Flatten(parts[..k]) + Flatten(parts[k..])
    decreases |parts|
  {
    if k < |parts| {
      var init := parts[..|parts| - 1];
      FlattenSplit(init, k);
      assert init[..k] == parts[..k];
      assert parts[k..] == init[k..] + [parts[|parts| - 1]];
      FlattenAppend(init[k..], parts[|parts| - 1]);
    } else {
      assert parts[..k] == parts && parts[k..] == [];
    }
  }

  /** Part k sits in the concatenation right after the parts before it. */
  lemma FlattenAt(parts: seq<Bytes>, k: nat)
    requires k < |parts|
    ensures |Flatten(parts[..k])| + |parts[k]| <= |Flatten(parts)|
    ensures Flatten(parts)[|Flatten(parts[..k])|..|Flatten(parts[..k])| + |parts[k]|] == parts[k]
  {
    FlattenSplit(parts, k + 1);
    assert parts[..k + 1] == parts[..k] + [parts[k]];
    FlattenAppend(parts[..k], parts[k]);
    var pre, rest := Flatten(parts[..k]), Flatten(parts[k + 1..]);
    assert Flatten(parts) == pre + parts[k] + rest;
    assert (pre + parts[k] + rest)[|pre|..|pre| + |parts[k]|] == parts[k];
  }

  /** No element of s occurs twice. */
  predicate NoDuplicates<T(==)>(s: seq<T>)
  {
    forall i, j | 0 <= i < j < |s| :: s[i] != s[j]
  }

  /** `s.startsWith(p)` */
  predicate StartsWith(s: string, p: string)
  {
    |p| <= |s| && s[..|p|] == p
  }

  /** `s.includes(t)` / `s.Contains(t)`: some suffix of s starts with t. */
  predicate Contains(s: string, t: string)
    decreases |s|
  {
    StartsWith(s, t) || (|s| > 0 && Contains(s[1..], t))
  }

  lemma {:induction false} ContainsAt(s: string, t: string, i: nat)
    requires i + |t| <= |s| && s[i..i + |t|] == t
    ensures Contains(s, t)
    decreases i
  {
    if i > 0 {
      assert s[1..][i - 1..i - 1 + |t|] == s[i..i + |t|];
      ContainsAt(s[1..], t, i - 1);
    }
  }

  /** A string that contains t once it is surrounded by anything. */
  lemma ContainsInfix(a: string, t: string, b: string)
    ensures Contains(a + t + b, t)
  {
    var s := a + t + b;
    assert s[|a|..|a| + |t|] == t;
    ContainsAt(s, t, |a|);
  }

  /** The character of a decimal digit. */
  function DigitChar(d: nat): (c: char)
    requires d < 10
    ensures '0' <= c <= '9'
  {
    "0123456789"[d]
  }

  /** JavaScript's and C#'s decimal rendering of a non-negative integer. */
  function Decimal(n: nat): (r: string)
    ensures |r| >= 1
    ensures n >= 10 ==> |r| >= 2
    ensures '0' <= r[0] <= '9'
    decreases n
  {
    if n < 10 then [DigitChar(n)] else Decimal(n / 10) + [DigitChar(n % 10)]
  }

  /** Distinct numbers have distinct decimal renderings, so chunk names built
      from indices never collide. */
  lemma {:induction false} DecimalInjective(a: nat, b: nat)
    requires Decimal(a) == Decimal(b)
    ensures a == b
    decreases a
  {
    var da, db := Decimal(a), Decimal(b);
    if a < 10 && b < 10 {
      assert DigitChar(a) == da[0] == DigitChar(b);
    } else if a >= 10 && b >= 10 {
      assert Decimal(a / 10) == da[..|da| - 1] == db[..|db| - 1] == Decimal(b / 10);
      assert DigitChar(a % 10) == da[|da| - 1] == DigitChar(b % 10);
      DecimalInjective(a / 10, b / 10);
    }
  }

  /** C#'s `int.ToString()`: a minus sign before the digits of a negative
      number. */
  function IntText(i: int): (r: string)
    ensures |r| >= 1
  {
    if i < 0 then "-" + Decimal(-i) else Decimal(i)
  }

  /** Distinct integers have distinct renderings. */
  lemma IntTextInjective(a: int, b: int)
    requires IntText(a) == IntText(b)
    ensures a == b
  {
    if a < 0 && b < 0 {
      assert Decimal(-a) == IntText(a)[1..] == IntText(b)[1..] == Decimal(-b);
      DecimalInjective(-a, -b);
    } else if a >= 0 && b >= 0 {
      DecimalInjective(a, b);
    }
  }

  /** A string still contains t once something is put in front of it. */
  lemma {:induction false} ContainsSuffix(a: string, b: string, t: string)
    requires Contains(b, t)
    ensures Contains(a + b, t)
    decreases |a|
  {
    if a != [] {
      assert (a + b)[1..] == a[1..] + b;
      ContainsSuffix(a[1..], b, t);
    } else {
      assert a + b == b;
    }
  }

  /** A string still contains t once something is put after it. */
  lemma {:induction false} ContainsPrefix(a: string, b: string, t: string)
    requires Contains(a, t)
    ensures Contains(a + b, t)
    decreases |a|
  {
    if StartsWith(a, t) {
      assert (a + b)[..|t|] == a[..|t|];
    } else {
      assert (a + b)[1..] == a[1..] + b;
      ContainsPrefix(a[1..], b, t);
    }
  }

  /** JavaScript's `s.split(sep)` for a one-character separator. */
  function Split(s: string, sep: char): (r: seq<string>)
    ensures |r| >= 1
    decreases |s|
  {
    if s == [] then [[]]
    else if s[0] == sep then [[]] + Split(s[1..], sep)
    else
      var rest := Split(s[1..], sep);
      [[s[0]] + rest[0]] + rest[1..]
  }

  /** Splitting at the first separator: the piece before it comes first. */
  lemma {:induction false} SplitAtFirst(a: string, sep: char, b: string)
    requires sep !in a
    ensures Split(a + [sep] + b, sep) == [a] + Split(b, sep)
    decreases |a|
  {
    if a == [] {
      assert a + [sep] + b == [sep] + b;
      assert ([sep] + b)[1..] == b;
    } else {
      var s := a + [sep] + b;
      assert s[0] == a[0] && s[1..] == a[1..] + [sep] + b;
      SplitAtFirst(a[1..], sep, b);
      assert [a[0]] + a[1..] == a;
    }
  }

  /** `s.split(sep)[0]` for a multi-character separator: the part of s before
      the first occurrence of sep, or all of s when there is none. */
  function PrefixBefore(s: string, sep: string): (r: string)
    requires |sep| > 0
    ensures |r| <= |s| && s[..|r|] == r
    decreases |s|
  {
    if StartsWith(s, sep) then []
    else if s == [] then []
    else [s[0]] + PrefixBefore(s[1..], sep)
  }

  /** No occurrence of sep starts before position k of s. */
  predicate NoOccurrenceBefore(s: string, sep: string, k: nat)
  {
    forall i | 0 <= i < k && i <= |s| :: !StartsWith(s[i..], sep)
  }

  /** When the first occurrence of sep starts at k, the prefix is s[..k]. */
  lemma {:induction false} PrefixBeforeFirst(s: string, sep: string, k: nat)
    requires |sep| > 0 && k <= |s|
    requires NoOccurrenceBefore(s, sep, k) && StartsWith(s[k..], sep)
    ensures PrefixBefore(s, sep) == s[..k]
    decreases k
  {
    if k == 0 {
      assert s[0..] == s;
    } else {
      assert !StartsWith(s[0..], sep) && s[0..] == s;
      assert s[1..][k - 1..] == s[k..];
      forall i | 0 <= i < k - 1 && i <= |s[1..]|
        ensures !StartsWith(s[1..][i..], sep)
      {
        assert s[1..][i..] == s[i + 1..];
      }
      PrefixBeforeFirst(s[1..], sep, k - 1);
      assert [s[0]] + s[1..][..k - 1] == s[..k];
    }
  }

  /** An occurrence of sep at p bounds the prefix before the first one. */
  lemma {:induction false} PrefixBeforeShort(s: string, sep: string, p: nat)
    requires |sep| > 0 && p <= |s| && StartsWith(s[p..], sep)
    ensures |PrefixBefore(s, sep)| <= p
    decreases p
  {
    if !StartsWith(s, sep) {
      assert p > 0;
      assert s[1..][p - 1..] == s[p..];
      PrefixBeforeShort(s[1..], sep, p - 1);
    }
  }

  /** The prefix before the first occurrence of sep does not contain sep. */
  lemma {:induction false} PrefixBeforeFree(s: string, sep: string)
    requires |sep| > 0
    ensures !Contains(PrefixBefore(s, sep), sep)
    decreases |s|
  {
    var r := PrefixBefore(s, sep);
    if !StartsWith(s, sep) && s != [] {
      PrefixBeforeFree(s[1..], sep);
      assert r[1..] == PrefixBefore(s[1..], sep);
    }
  }

  /** Two maps that agree off k agree once k is set in both. */
  lemma SetAgain<K, V>(a: map<K, V>, b: map<K, V>, k: K, v: V)
    requires a - {k} == b - {k}
    ensures a[k := v] == b[k := v]
  {
    var a2, b2 := a[k := v], b[k := v];
    forall x ensures x in a2 <==> x in b2 {
      if x != k {
        assert x in a <==> x in a - {k};
        assert x in b <==> x in b - {k};
      }
    }
    forall x | x in a2 && x != k ensures a2[x] == b2[x] {
      assert (a - {k})[x] == a[x] && (b - {k})[x] == b[x];
    }
  }

  /** Setting k changes nothing off k. */
  lemma SetElsewhere<K, V>(a: map<K, V>, k: K, v: V)
    ensures a[k := v] - {k} == a - {k}
  {
  }
}
