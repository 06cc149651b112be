/** Text primitives of the emitted C++: decimal numerals as Rust's `{}` prints
    an unsigned integer, repetition, prefixes, and the small scanners the
    decoders in module `Decode` are built from. */
module Text {
  import opened Results

  predicate IsDigit(c: char) { '0' <= c <= '9' }

  /** Every character is 7-bit ASCII, the promise `write_ascii` checks. */
  predicate IsAscii(s: string) { forall c :: c in s ==> c as int < 128 }

  function DigitChar(d: nat): (c: char)
    requires d < 10
    ensures IsDigit(c) && c as int - '0' as int == d
  {
    ('0' as int + d) as char
  }

  function DigitValue(c: char): nat
    requires IsDigit(c)
  {
    c as int - '0' as int
  }

  /** The decimal numeral of `n`, most significant digit first, no leading
      zeros: what `format!("{}", n)` yields for a `usize`. */
  function NatStr(n: nat): (s: string)
    ensures 0 < |s|
    ensures forall i :: 0 <= i < |s| ==> IsDigit(s[i])
    decreases n
  {
    if n < 10 then [DigitChar(n)] else NatStr(n / 10) + [DigitChar(n % 10)]
  }

  lemma NatStrAscii(n: nat)
    ensures IsAscii(NatStr(n))
  {
    var s := NatStr(n);
    forall c | c in s ensures c as int < 128 {
      var i :| 0 <= i < |s| && s[i] == c;
    }
  }

  /** The value of a run of decimal digits. */
  function ParseDigits(s: string): nat
    requires forall i :: 0 <= i < |s| ==> IsDigit(s[i])
    decreases |s|
  {
    if s == [] then 0 else ParseDigits(s[..|s| - 1]) * 10 + DigitValue(s[|s| - 1])
  }

  /** Reading a numeral back gives the number that was printed. */
  lemma {:induction false} ParseNatStr(n: nat)
    ensures ParseDigits(NatStr(n)) == n
    decreases n
  {
    if n >= 10 {
      var s := NatStr(n);
      assert s[..|s| - 1] == NatStr(n / 10);
      assert s[|s| - 1] == DigitChar(n % 10);
      ParseNatStr(n / 10);
    }
  }

  /** Distinct numbers print as distinct numerals. */
  lemma NatStrInjective(a: nat, b: nat)
    ensures NatStr(a) == NatStr(b) ==> a == b
  {
    ParseNatStr(a);
    ParseNatStr(b);
  }

  /** Length of the longest all-digit prefix. */
  function DigitRun(s: string): (k: nat)
    ensures k <= |s|
    ensures forall i :: 0 <= i < k ==> IsDigit(s[i])
    ensures k < |s| ==> !IsDigit(s[k])
    decreases |s|
  {
    if s != [] && IsDigit(s[0]) then 1 + DigitRun(s[1..]) else 0
  }

  /** Reads a non-empty numeral at the front of `s` and returns its value and
      the text after it. */
  function ScanNat(s: string): (r: Option<(nat, string)>)
    ensures r.Some? ==> |r.value.1| < |s|
  {
    var k := DigitRun(s);
    if k == 0 then None else Some((ParseDigits(s[..k]), s[k..]))
  }

  lemma {:induction false} DigitRunOfNumeral(a: string, t: string)
    requires forall i :: 0 <= i < |a| ==> IsDigit(a[i])
    requires t == [] || !IsDigit(t[0])
    ensures DigitRun(a + t) == |a|
    decreases |a|
  {
    if a != [] {
      assert (a + t)[1..] == a[1..] + t;
      DigitRunOfNumeral(a[1..], t);
    }
  }

  /** A printed number followed by a non-digit scans back to itself. */
  lemma ScanNatStr(n: nat, t: string)
    requires t == [] || !IsDigit(t[0])
    ensures ScanNat(NatStr(n) + t) == Some((n, t))
  {
    var a := NatStr(n);
    DigitRunOfNumeral(a, t);
    assert (a + t)[..|a|] == a;
    assert (a + t)[|a|..] == t;
    ParseNatStr(n);
  }

  /** `s` with the prefix `p` removed, if `s` starts with `p`. */
  function StripPrefix(p: string, s: string): (r: Option<string>)
    ensures r.Some? <==> p <= s
    ensures r.Some? ==> s == p + r.value
  {
    if |p| <= |s| && s[..|p|] == p then Some(s[|p|..]) else None
  }

  lemma StripPrefixOf(p: string, t: string)
    ensures StripPrefix(p, p + t) == Some(t)
  {
    assert (p + t)[..|p|] == p;
    assert (p + t)[|p|..] == t;
  }

  /** Concatenation regrouped, stated over plain sequences so that using it
      on text with literals stays cheap. */
  lemma Assoc<T>(a: seq<T>, b: seq<T>, c: seq<T>)
    ensures a + b + c == a + (b + c)
  {
  }

  /** The two halves of a concatenation, recovered by slicing. */
  lemma SplitAt<T>(p: seq<T>, u: seq<T>)
    ensures |p| <= |p + u| && (p + u)[..|p|] == p && (p + u)[|p|..] == u
  {
    assert (p + u)[..|p|] == p;
    assert (p + u)[|p|..] == u;
  }

  /** `k` copies of `s`. */
  function Repeat(s: string, k: nat): string
  {
    if k == 0 then [] else s + Repeat(s, k - 1)
  }

  lemma {:induction false} RepeatSnoc(s: string, k: nat)
    ensures Repeat(s, k + 1) == Repeat(s, k) + s
  {
    if k > 0 {
      RepeatSnoc(s, k - 1);
    }
  }

  predicate EndsWith(s: string, suffix: string)
  {
    |suffix| <= |s| && s[|s| - |suffix|..] == suffix
  }

  lemma EndsWithAppend(p: string, suffix: string)
    ensures EndsWith(p + suffix, suffix)
  {
    assert (p + suffix)[|p|..] == suffix;
  }
}
