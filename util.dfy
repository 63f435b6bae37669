/**
 * Small shared vocabulary: optional values, decimal rendering of numbers
 * (as Rust's `format!("{}", n)` prints a non-negative integer) and joining
 * strings with a separator.
 */
module Util {

  datatype Option<T> = None | Some(value: T)

  predicate IsDigit(c: char) { '0' <= c <= '9' }

  function DigitChar(d: nat): (c: char)
    requires d < 10
    ensures IsDigit(c)
  {
    ('0' as int + d) as char
  }

  function DigitValue(c: char): (d: nat)
    requires IsDigit(c)
    ensures d < 10 && DigitChar(d) == c
  {
    c as int - '0' as int
  }

  /** The decimal spelling of `n`, without leading zeros. */
  function NatToString(n: nat): (s: string)
    ensures |s| >= 1
    ensures forall i :: 0 <= i < |s| ==> IsDigit(s[i])
    decreases n
  {
    if n < 10 then [DigitChar(n)] else NatToString(n / 10) + [DigitChar(n % 10)]
  }

  /** The value of a string of decimal digits (the empty string reads as 0). */
  function DecimalValue(s: string): nat
    requires forall i :: 0 <= i < |s| ==> IsDigit(s[i])
  {
    if s == [] then 0 else DecimalValue(s[..|s| - 1]) * 10 + DigitValue(s[|s| - 1])
  }

  lemma {:induction false} DecimalOfNatToString(n: nat)
    ensures DecimalValue(NatToString(n)) == n
    decreases n
  {
    var s := NatToString(n);
    if n >= 10 {
      DecimalOfNatToString(n / 10);
      assert s[..|s| - 1] == NatToString(n / 10);
    }
  }

  /** Distinct numbers are spelled differently. */
  lemma NatToStringInjective(m: nat, n: nat)
    requires NatToString(m) == NatToString(n)
    ensures m == n
  {
    DecimalOfNatToString(m);
    DecimalOfNatToString(n);
  }

  /** `parts` joined with `sep` between consecutive parts (Rust's `join`). */
  function Join(parts: seq<string>, sep: string): string
  {
    if |parts| == 0 then ""
    else if |parts| == 1 then parts[0]
    else parts[0] + sep + Join(parts[1..], sep)
  }

  /** Joining one more part adds the separator and that part at the end. */
  lemma {:induction false} JoinSnoc(parts: seq<string>, x: string, sep: string)
    requires parts != []
    ensures Join(parts + [x], sep) == Join(parts, sep) + sep + x
  {
    if |parts| == 1 {
      assert parts + [x] == [parts[0], x];
      assert [parts[0], x][1..] == [x];
    } else {
      assert (parts + [x])[1..] == parts[1..] + [x];
      JoinSnoc(parts[1..], x, sep);
    }
  }

  /**
   * What a loop that writes `parts[j]` and then, unless it was the last part,
   * `sep`, has written after its first `i` turns.
   */
  function JoinedPrefix(parts: seq<string>, i: nat, sep: string): string
    requires i <= |parts|
  {
    if i == 0 then ""
    else if i < |parts| then Join(parts[..i], sep) + sep
    else Join(parts, sep)
  }

  /** One more turn of such a loop: the text grows by one part and, unless it was the last, one separator. */
  lemma JoinedPrefixStep(parts: seq<string>, i: nat, sep: string)
    requires i < |parts|
    ensures JoinedPrefix(parts, i + 1, sep)
      == JoinedPrefix(parts, i, sep) + parts[i] + (if i < |parts| - 1 then sep else "")
  {
    if i == 0 {
      assert parts[..1] == [parts[0]];
    } else {
      assert parts[..i + 1] == parts[..i] + [parts[i]];
      JoinSnoc(parts[..i], parts[i], sep);
      if i + 1 == |parts| {
        assert parts[..i + 1] == parts;
      }
    }
  }

  /** One turn of such a loop, stated on the whole buffer: what was written before, then the part and its separator. */
  lemma JoinedPrefixLoop(start: string, parts: seq<string>, i: nat, sep: string, before: string, now: string)
    requires i < |parts|
    requires before == start + JoinedPrefix(parts, i, sep)
    requires now == before + parts[i] + (if i < |parts| - 1 then sep else "")
    ensures now == start + JoinedPrefix(parts, i + 1, sep)
  {
    JoinedPrefixStep(parts, i, sep);
  }

  function Concat(parts: seq<string>): string
  {
    if parts == [] then "" else parts[0] + Concat(parts[1..])
  }

  lemma {:induction false} ConcatAppend(a: seq<string>, b: seq<string>)
    ensures Concat(a + b) == Concat(a) + Concat(b)
  {
    if a != [] {
      assert (a + b)[1..] == a[1..] + b;
      ConcatAppend(a[1..], b);
    } else {
      assert a + b == b;
    }
  }

  function Sum(xs: seq<nat>): nat
  {
    if xs == [] then 0 else Sum(xs[..|xs| - 1]) + xs[|xs| - 1]
  }

  lemma {:induction false} SumAppend(a: seq<nat>, b: seq<nat>)
    ensures Sum(a + b) == Sum(a) + Sum(b)
    decreases |b|
  {
    if b != [] {
      assert (a + b)[..|a + b| - 1] == a + b[..|b| - 1];
      SumAppend(a, b[..|b| - 1]);
    } else {
      assert a + b == a;
    }
  }

  /** Map union is associative. */
  lemma UnionAssociative<K, V>(a: map<K, V>, b: map<K, V>, c: map<K, V>)
    ensures a + (b + c) == (a + b) + c
  {
  }

  /** Adding entries at keys `>= base` leaves the keys below `base` as they were. */
  lemma UnionAbove<V>(m: map<nat, V>, added: map<nat, V>, base: nat)
    requires forall k :: k in added ==> base <= k
    ensures forall k :: k in m + added && k < base ==> k in m
  {
  }

  /** Updating the right operand of a map union is updating the union. */
  lemma UnionUpdate<K, V>(m: map<K, V>, n: map<K, V>, k: K, v: V)
    ensures m + n[k := v] == (m + n)[k := v]
  {
  }
}
