/** String functions that several components share: occurrences, first occurrence,
    left-to-right replacement, lengths in bytes and decimal numerals. */
module Text {

  /** `p` occurs in `s` at index `i`. */
  predicate At(s: string, p: string, i: int) {
    0 <= i && i + |p| <= |s| && s[i..i + |p|] == p
  }

  ghost predicate Occurs(s: string, p: string) {
    exists i :: At(s, p, i)
  }

  /** First index at or after `from` where `p` occurs, or -1. */
  function FindFrom(s: string, p: string, from: nat): (r: int)
    requires from <= |s|
    ensures r == -1 || (from <= r && At(s, p, r))
    ensures forall j :: from <= j && At(s, p, j) ==> 0 <= r <= j
    decreases |s| - from
  {
    if At(s, p, from) then from
    else if from == |s| then -1
    else FindFrom(s, p, from + 1)
  }

  /** `str::find`: the first index where `p` occurs, or -1. */
  function Find(s: string, p: string): (r: int)
    ensures r == -1 || At(s, p, r)
    ensures forall j :: At(s, p, j) ==> 0 <= r <= j
  {
    FindFrom(s, p, 0)
  }

  lemma {:induction false} FindBounds(s: string, p: string)
    ensures Find(s, p) != -1 ==> 0 <= Find(s, p) && Find(s, p) + |p| <= |s|
  {
  }

  lemma {:induction false} FindIs(s: string, p: string, i: int)
    requires At(s, p, i)
    requires forall j :: 0 <= j < i ==> !At(s, p, j)
    ensures Find(s, p) == i
  {
  }

  lemma {:induction false} AtChar(s: string, p: string, i: int, k: nat)
    requires k < |p|
    ensures At(s, p, i) ==> i + k < |s| && s[i + k] == p[k]
  {
    if At(s, p, i) {
      assert s[i..i + |p|][k] == p[k];
    }
  }

  lemma {:induction false} NotIn(a: string, p: string)
    requires p != [] && p[0] !in a
    ensures Find(a, p) == -1
  {
    var r := Find(a, p);
    AtChar(a, p, r, 0);
  }

  lemma {:induction false} AtPrefixOf(s: string, p: string, c: string, i: int)
    requires c <= p && At(s, p, i)
    ensures At(s, c, i)
  {
    assert s[i..i + |c|] == s[i..i + |p|][..|c|];
  }

  /** A string around one of its occurrences. */
  lemma {:induction false} AroundAt(s: string, p: string, i: nat)
    requires At(s, p, i)
    ensures s == s[..i] + p + s[i + |p|..]
  {
  }

  lemma {:induction false} AtLeft(a: string, b: string, p: string, i: int)
    requires i + |p| <= |a|
    ensures At(a + b, p, i) <==> At(a, p, i)
  {
    if 0 <= i {
      assert (a + b)[i..i + |p|] == a[i..i + |p|];
    }
  }

  lemma {:induction false} AtRight(a: string, b: string, p: string, i: int)
    requires |a| <= i
    ensures At(a + b, p, i) <==> At(b, p, i - |a|)
  {
    if i + |p| <= |a + b| {
      assert (a + b)[i..i + |p|] == b[i - |a|..i - |a| + |p|];
    }
  }

  /** If no occurrence starts inside `a`, searching `a + b` is searching `b`. */
  lemma {:induction false} FindSkip(a: string, b: string, p: string)
    requires forall i :: 0 <= i < |a| ==> !At(a + b, p, i)
    ensures Find(a + b, p) == if Find(b, p) == -1 then -1 else |a| + Find(b, p)
  {
    var s := a + b;
    forall j | |a| <= j
      ensures At(s, p, j) <==> At(b, p, j - |a|)
    {
      AtRight(a, b, p, j);
    }
    var r, rs := Find(b, p), Find(s, p);
    if r != -1 {
      assert At(s, p, |a| + r);
    }
    if rs != -1 {
      assert At(b, p, rs - |a|);
    }
  }

  /** An occurrence that is complete in `a` stays the first one however `a` is continued. */
  lemma {:induction false} FindStable(a: string, b: string, p: string)
    requires |p| > 0
    requires Find(a, p) != -1
    ensures Find(a + b, p) == Find(a, p)
  {
    var r := Find(a, p);
    AtLeft(a, b, p, r);
    forall j | 0 <= j < r
      ensures !At(a + b, p, j)
    {
      AtLeft(a, b, p, j);
    }
    FindIs(a + b, p, r);
  }

  /** Cutting behind the first occurrence keeps it the first. */
  lemma {:induction false} FindPrefix(s: string, p: string, cut: nat)
    requires cut <= |s| && Find(s, p) != -1 && Find(s, p) + |p| <= cut
    ensures Find(s[..cut], p) == Find(s, p)
  {
    var r := Find(s, p);
    assert s == s[..cut] + s[cut..];
    forall j | j + |p| <= cut
      ensures At(s[..cut], p, j) <==> At(s, p, j)
    {
      AtLeft(s[..cut], s[cut..], p, j);
    }
    FindIs(s[..cut], p, r);
  }

  lemma {:induction false} Assoc<T>(a: seq<T>, b: seq<T>, c: seq<T>)
    ensures a + (b + c) == (a + b) + c
  {
  }

  lemma {:induction false} TailFrom(a: string, b: string)
    ensures (a + b)[|a|..] == b
  {
  }

  lemma {:induction false} SliceTo(a: string, b: string, c: string)
    ensures (a + (b + c))[|a|..|a| + |b|] == b && (a + (b + c))[|a| + |b|..] == c
  {
  }

  function Concat(parts: seq<string>): string {
    if parts == [] then "" else parts[0] + Concat(parts[1..])
  }

  /** At most the first `n` elements. */
  function Take<T>(s: seq<T>, n: nat): (r: seq<T>)
    ensures |r| <= n && r <= s
  {
    if |s| <= n then s else s[..n]
  }

  /** `str::replace`: left-to-right, non-overlapping. */
  function Replace(s: string, p: string, r: string): (out: string)
    requires |p| > 0
    decreases |s|
  {
    if |s| < |p| then s
    else if p <= s then r + Replace(s[|p|..], p, r)
    else [s[0]] + Replace(s[1..], p, r)
  }

  /** UTF-8 length of a string: `str::len`. */
  function ByteLength(s: string): nat {
    if s == [] then 0
    else
      var c := s[0] as int;
      (if c < 0x80 then 1 else if c < 0x800 then 2 else if c < 0x10000 then 3 else 4) + ByteLength(s[1..])
  }

  /** `str::contains` */
  predicate Contains(s: string, p: string) {
    Find(s, p) != -1
  }

  /** `str::ends_with` */
  predicate EndsWith(s: string, suffix: string) {
    |suffix| <= |s| && s[|s| - |suffix|..] == suffix
  }

  /** `char::to_ascii_lowercase` */
  function Lower(c: char): char {
    if 'A' <= c <= 'Z' then c - 'A' + 'a' else c
  }

  function LowerAscii(s: string): (r: string)
    ensures |r| == |s|
  {
    seq(|s|, i requires 0 <= i < |s| => Lower(s[i]))
  }

  // ---------- decimal numerals ----------

  function Digit(d: nat): char
    requires d < 10
  {
    '0' + d as char
  }

  function Decimal(n: nat): (s: string)
    ensures |s| > 0
    ensures forall i :: 0 <= i < |s| ==> '0' <= s[i] <= '9'
  {
    if n < 10 then [Digit(n)] else Decimal(n / 10) + [Digit(n % 10)]
  }

  function DecimalValue(s: string): nat
    requires forall i :: 0 <= i < |s| ==> '0' <= s[i] <= '9'
  {
    if s == [] then 0
    else
      10 * DecimalValue(s[..|s| - 1]) + (s[|s| - 1] - '0') as nat
  }

  /** Numerals denote their number, so distinct numbers have distinct numerals. */
  lemma {:induction false} DecimalRoundTrip(n: nat)
    ensures DecimalValue(Decimal(n)) == n
  {
    if n >= 10 {
      DecimalRoundTrip(n / 10);
      var s := Decimal(n);
      assert s[..|s| - 1] == Decimal(n / 10);
    }
  }

  function Power10(n: nat): nat {
    if n == 0 then 1 else 10 * Power10(n - 1)
  }

  lemma {:induction false} DecimalLength(n: nat, digits: nat)
    requires digits > 0 && n < Power10(digits)
    ensures |Decimal(n)| <= digits
  {
    if n >= 10 {
      DecimalLength(n / 10, digits - 1);
    }
  }

  /** A 64-bit count prints as at most twenty digits. */
  lemma {:induction false} UsizeDigits(n: nat)
    requires n < 0x1_0000_0000_0000_0000
    ensures |Decimal(n)| <= 20
  {
    assert Power10(4) == 10_000;
    assert Power10(8) == 100_000_000;
    assert Power10(12) == 1_000_000_000_000;
    assert Power10(16) == 10_000_000_000_000_000;
    assert n < Power10(20);
    DecimalLength(n, 20);
  }
}
