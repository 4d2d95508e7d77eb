/**
 * The handful of Python `str` operations the scraper relies on: `lower()`,
 * the substring test `p in s`, `replace('\xa0', ' ')`, slicing off the last
 * character and `str(n)` for integers; and `sep.join(xs)`, which the code
 * uses only as `''.join`, and which the model also uses with `'&'` to state
 * the expected layout of a query string.
 */
module Text {

  /** Python's `str.lower()` on one character, restricted to ASCII letters. */
  function LowerChar(c: char): char
  {
    if 'A' <= c <= 'Z' then (c as int - 'A' as int + 'a' as int) as char else c
  }

  /** Python's `s.lower()`, with the ASCII-only case mapping of LowerChar. */
  function Lower(s: string): (r: string)
    ensures |r| == |s|
    ensures forall i :: 0 <= i < |s| ==> r[i] == LowerChar(s[i])
  {
    seq(|s|, i requires 0 <= i < |s| => LowerChar(s[i]))
  }

  /** Lowering twice is lowering once. */
  lemma LowerIdempotent(s: string)
    ensures Lower(Lower(s)) == Lower(s)
  {
  }

  /** `p` occurs in `s` starting at index `i`. */
  ghost predicate OccursAt(p: string, s: string, i: int)
  {
    0 <= i && i + |p| <= |s| && s[i..i + |p|] == p
  }

  /** Reference meaning of Python's `p in s` for strings: some occurrence exists. */
  ghost predicate IsSubstring(p: string, s: string)
  {
    exists i :: OccursAt(p, s, i)
  }

  /** Python's `p in s` for strings, as a left-to-right search. */
  function Contains(s: string, p: string): bool
    decreases |s|
  {
    if |p| > |s| then false
    else if s[..|p|] == p then true
    else Contains(s[1..], p)
  }

  /** The search finds `p` exactly when `p` occurs somewhere in `s`. */
  lemma {:induction false} ContainsIsSubstring(s: string, p: string)
    ensures Contains(s, p) <==> IsSubstring(p, s)
    decreases |s|
  {
    if |p| > |s| {
      assert !IsSubstring(p, s);
    } else if s[..|p|] == p {
      assert OccursAt(p, s, 0);
    } else {
      ContainsIsSubstring(s[1..], p);
      if IsSubstring(p, s[1..]) {
        var i :| OccursAt(p, s[1..], i);
        SliceOfTail(s, i, |p|);
        assert OccursAt(p, s, i + 1);
      }
      if IsSubstring(p, s) {
        var i :| OccursAt(p, s, i);
        assert i != 0;
        SliceOfTail(s, i - 1, |p|);
        assert OccursAt(p, s[1..], i - 1);
      }
    }
  }

  /** A slice of the tail is the slice of the whole shifted by one. */
  lemma SliceOfTail(s: string, i: nat, n: nat)
    requires i + n + 1 <= |s|
    ensures s[1..][i..i + n] == s[i + 1..i + 1 + n]
  {
  }

  /** The empty string occurs in every string. */
  lemma EmptyIsSubstring(s: string)
    ensures IsSubstring("", s)
  {
    assert OccursAt("", s, 0);
  }

  /** The non-breaking space U+00A0, Python's `'\xa0'`. */
  const Nbsp: char := '\U{00A0}'

  /** `r` is `src` with every non-breaking space turned into a plain space. */
  ghost predicate SpacesNormalized(src: string, r: string)
  {
    && |r| == |src|
    && forall i :: 0 <= i < |src| ==> r[i] == (if src[i] == Nbsp then ' ' else src[i])
  }

  /** Python's `s.replace('\xa0', ' ')`. */
  function ReplaceNbsp(s: string): (r: string)
    ensures SpacesNormalized(s, r)
    ensures Nbsp !in r
  {
    if s == [] then []
    else [if s[0] == Nbsp then ' ' else s[0]] + ReplaceNbsp(s[1..])
  }

  /** Python's `s[:-1]`: drop the last character, and leave the empty string alone. */
  function DropLast(s: string): (r: string)
    ensures |s| > 0 ==> r + [s[|s| - 1]] == s
    ensures |s| == 0 ==> r == s
  {
    if |s| == 0 then s else s[..|s| - 1]
  }

  predicate IsDigit(c: char)
  {
    '0' <= c <= '9'
  }

  /** The number a string of decimal digits stands for, most significant digit first. */
  ghost function DigitsValue(s: string): nat
  {
    if s == [] then 0
    else
      var last := s[|s| - 1];
      DigitsValue(s[..|s| - 1]) * 10 + (if IsDigit(last) then last as int - '0' as int else 0)
  }

  /** Decimal digits of a natural number, most significant first, with no leading zero. */
  function NatToString(n: nat): (r: string)
    ensures |r| > 0
    ensures forall i :: 0 <= i < |r| ==> IsDigit(r[i])
    ensures DigitsValue(r) == n
    ensures n > 0 ==> r[0] != '0'
    ensures |r| > 1 ==> r[0] != '0'
  {
    if n < 10 then
      var r := [('0' as int + n) as char];
      assert r[..0] == [];
      r
    else
      var front := NatToString(n / 10);
      var r := front + [('0' as int + n % 10) as char];
      assert r[..|r| - 1] == front;
      r
  }

  /** Python's `str(n)` (and `f'{n}'`) for an integer: an optional minus sign, then the digits of `|n|`. */
  function IntToString(n: int): (r: string)
    ensures |r| > 0 && IsDigit(r[|r| - 1])
    ensures forall i :: 0 <= i < |r| ==> IsDigit(r[i]) || (i == 0 && r[i] == '-')
    ensures n >= 0 ==> DigitsValue(r) == n && (|r| > 1 ==> r[0] != '0')
    ensures n < 0 ==> r[0] == '-' && DigitsValue(r[1..]) == -n && (|r| > 2 ==> r[1] != '0')
    ensures r[0] == '-' <==> n < 0
  {
    if n < 0 then
      var digits := NatToString(-n);
      assert ("-" + digits)[1..] == digits;
      "-" + digits
    else NatToString(n)
  }

  /** Python's `sep.join(xs)`. */
  function Join(sep: string, xs: seq<string>): string
  {
    if xs == [] then ""
    else if |xs| == 1 then xs[0]
    else xs[0] + sep + Join(sep, xs[1..])
  }

  /** Joining a concatenation puts one separator between the two joined halves. */
  lemma {:induction false} JoinAppend(sep: string, xs: seq<string>, ys: seq<string>)
    requires xs != [] && ys != []
    ensures Join(sep, xs + ys) == Join(sep, xs) + sep + Join(sep, ys)
    decreases |xs|
  {
    if |xs| == 1 {
      assert (xs + ys)[1..] == ys;
    } else {
      assert (xs + ys)[1..] == xs[1..] + ys;
      JoinAppend(sep, xs[1..], ys);
    }
  }
}
