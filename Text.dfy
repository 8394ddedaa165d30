/** String operations of the .NET base library that the generator relies on:
    `string.Join`, `string.Replace`, `StartsWith`, `Split(c)[0]` and invariant-culture
    case mapping (restricted to ASCII letters). */
module Text {

  /** `string.Join(sep, parts)`: the parts in order, with `sep` between neighbours. */
  function Join(sep: string, parts: seq<string>): string
    decreases |parts|
  {
    if |parts| == 0 then ""
    else if |parts| == 1 then parts[0]
    else parts[0] + sep + Join(sep, parts[1..])
  }

  /** Appending one more part adds exactly one separator (none before the first part). */
  lemma {:induction false} JoinSnoc(sep: string, parts: seq<string>, last: string)
    ensures Join(sep, parts + [last]) == if parts == [] then last else Join(sep, parts) + sep + last
    decreases |parts|
  {
    if |parts| == 0 {
    } else if |parts| == 1 {
      assert parts + [last] == [parts[0], last];
      assert (parts + [last])[1..] == [last];
    } else {
      assert (parts + [last])[1..] == parts[1..] + [last];
      JoinSnoc(sep, parts[1..], last);
    }
  }

  /** A join never starts or ends with a separator that is not part of the first or last part:
      it starts with the first part and ends with the last one. */
  lemma {:induction false} JoinEnds(sep: string, parts: seq<string>)
    requires |parts| > 0
    ensures |parts[0]| <= |Join(sep, parts)| && Join(sep, parts)[..|parts[0]|] == parts[0]
    ensures |parts[|parts| - 1]| <= |Join(sep, parts)|
    ensures Join(sep, parts)[|Join(sep, parts)| - |parts[|parts| - 1]|..] == parts[|parts| - 1]
    decreases |parts|
  {
    if |parts| > 1 {
      JoinEnds(sep, parts[1..]);
      var rest := Join(sep, parts[1..]);
      var whole := parts[0] + sep + rest;
      assert whole[..|parts[0]|] == parts[0];
      assert whole[|whole| - |parts[|parts| - 1]|..] == rest[|rest| - |parts[|parts| - 1]|..];
    }
  }

  /** The length of a join: the parts plus one separator per gap. */
  lemma {:induction false} JoinLength(sep: string, parts: seq<string>)
    requires |parts| > 0
    ensures |Join(sep, parts)| == SumLengths(parts) + (|parts| - 1) * |sep|
    decreases |parts|
  {
    if |parts| > 1 {
      JoinLength(sep, parts[1..]);
    }
  }

  /** The total length of a sequence of strings. */
  function SumLengths(parts: seq<string>): nat
    decreases |parts|
  {
    if parts == [] then 0 else |parts[0]| + SumLengths(parts[1..])
  }

  /** `s.StartsWith(prefix)` with ordinal comparison. */
  predicate StartsWith(s: string, prefix: string) {
    |prefix| <= |s| && s[..|prefix|] == prefix
  }

  /** `s.EndsWith(suffix)` with ordinal comparison. */
  predicate EndsWith(s: string, suffix: string) {
    |suffix| <= |s| && s[|s| - |suffix|..] == suffix
  }

  /** `sub` occurs in `s` at position `i`. */
  predicate OccursAt(s: string, sub: string, i: nat) {
    i + |sub| <= |s| && s[i..i + |sub|] == sub
  }

  /** `s.Contains(sub)` */
  predicate Contains(s: string, sub: string) {
    exists i: nat | i <= |s| :: OccursAt(s, sub, i)
  }

  /** `s.Replace(from, to)`: every non-overlapping occurrence of `from`, scanning left to
      right, is replaced by `to`. The source only ever passes a non-empty `from`
      (the .NET method throws on an empty one). */
  function ReplaceAll(s: string, from: string, to: string): string
    requires |from| > 0
    decreases |s|
  {
    if |s| < |from| then s
    else if s[..|from|] == from then to + ReplaceAll(s[|from|..], from, to)
    else [s[0]] + ReplaceAll(s[1..], from, to)
  }

  /** Replacing one character by another keeps the length and the other characters, and
      leaves no occurrence of the replaced character. */
  lemma {:induction false} ReplaceCharSpec(s: string, from: char, to: char)
    requires from != to
    ensures |ReplaceAll(s, [from], [to])| == |s|
    ensures forall i :: 0 <= i < |s| ==>
      ReplaceAll(s, [from], [to])[i] == (if s[i] == from then to else s[i])
    ensures forall i :: 0 <= i < |s| ==> ReplaceAll(s, [from], [to])[i] != from
    decreases |s|
  {
    if |s| > 0 {
      ReplaceCharSpec(s[1..], from, to);
      var r := ReplaceAll(s, [from], [to]);
      assert s[..1] == [s[0]];
      assert r == (if s[0] == from then [to] else [s[0]]) + ReplaceAll(s[1..], [from], [to]);
    }
  }

  /** A text without an occurrence of `from` is left unchanged. */
  lemma {:induction false} ReplaceAbsent(s: string, from: string, to: string)
    requires |from| > 0
    requires !Contains(s, from)
    ensures ReplaceAll(s, from, to) == s
    decreases |s|
  {
    if |s| >= |from| {
      assert !OccursAt(s, from, 0);
      assert s[0..|from|] == s[..|from|];
      forall i: nat | OccursAt(s[1..], from, i) ensures OccursAt(s, from, i + 1) {
        assert s[1..][i..i + |from|] == s[i + 1..i + 1 + |from|];
      }
      ReplaceAbsent(s[1..], from, to);
      assert s == [s[0]] + s[1..];
    }
  }

  /** An occurrence of `from` at the start is replaced, and the scan resumes after it. */
  lemma ReplaceAtStart(from: string, rest: string, to: string)
    requires |from| > 0
    ensures ReplaceAll(from + rest, from, to) == to + ReplaceAll(rest, from, to)
  {
    var s := from + rest;
    assert s[..|from|] == from && s[|from|..] == rest;
  }

  /** A text none of whose characters can start `from` is copied as it is. */
  lemma {:induction false} ReplaceSkips(a: string, s: string, from: string, to: string)
    requires |from| > 0 && from[0] !in a
    ensures ReplaceAll(a + s, from, to) == a + ReplaceAll(s, from, to)
    decreases |a|
  {
    if a != [] {
      var t := a + s;
      if |t| >= |from| {
        assert t[0] == a[0] != from[0];
        assert t[..|from|] != from;
        assert t[1..] == a[1..] + s;
        assert ReplaceAll(t, from, to) == [a[0]] + ReplaceAll(a[1..] + s, from, to);
        ReplaceSkips(a[1..], s, from, to);
        assert a == [a[0]] + a[1..];
      } else {
        assert ReplaceAll(s, from, to) == s;
      }
    } else {
      assert a + s == s;
    }
  }

  /** `s.Split(c)[0]`: the text before the first `c`, or all of `s` when there is none. */
  function Before(s: string, c: char): (r: string)
    ensures StartsWith(s, r)
    ensures c !in r
    ensures |r| < |s| ==> s[|r|] == c
    decreases |s|
  {
    if s == [] then []
    else if s[0] == c then []
    else [s[0]] + Before(s[1..], c)
  }

  /** Invariant-culture lower-casing, restricted to ASCII letters. */
  function ToLower(c: char): char {
    if 'A' <= c <= 'Z' then (c as int + 32) as char else c
  }

  /** Invariant-culture upper-casing, restricted to ASCII letters. */
  function ToUpper(c: char): char {
    if 'a' <= c <= 'z' then (c as int - 32) as char else c
  }

  /** Lower-casing a character that is already lower-cased, or upper-cased and then
      lower-cased, gives the same character. */
  lemma CaseMappingLaws(c: char)
    ensures ToLower(ToLower(c)) == ToLower(c)
    ensures ToUpper(ToUpper(c)) == ToUpper(c)
    ensures ToLower(ToUpper(c)) == ToLower(c)
    ensures ToUpper(ToLower(c)) == ToUpper(c)
  {
  }

  /** A character of the regular-expression class `\w`, restricted to ASCII. */
  predicate IsWordChar(c: char) {
    ('a' <= c <= 'z') || ('A' <= c <= 'Z') || ('0' <= c <= '9') || c == '_'
  }

  /** The decimal digit for `d`. */
  function DigitChar(d: nat): char
    requires d < 10
  {
    "0123456789"[d]
  }

  /** The decimal digits of `n`, without leading zeros. */
  function Digits(n: nat): (r: string)
    ensures |r| > 0 && forall i :: 0 <= i < |r| ==> '0' <= r[i] <= '9'
    decreases n
  {
    if n < 10 then [DigitChar(n)] else Digits(n / 10) + [DigitChar(n % 10)]
  }

  /** `int.ToString()`: an optional minus sign, then the decimal digits. */
  function IntToString(i: int): (r: string)
    ensures i < 0 <==> |r| > 0 && r[0] == '-'
  {
    if i < 0 then "-" + Digits(-i) else Digits(i)
  }

  /** The value of a string of decimal digits. */
  function DigitsValue(s: string): int
    decreases |s|
  {
    if s == [] then 0 else DigitsValue(s[..|s| - 1]) * 10 + (s[|s| - 1] as int - '0' as int)
  }

  /** Reading the digits back gives the number. */
  lemma {:induction false} DigitsRoundTrip(n: nat)
    ensures DigitsValue(Digits(n)) == n
    decreases n
  {
    if n >= 10 {
      DigitsRoundTrip(n / 10);
      var s := Digits(n);
      assert s[..|s| - 1] == Digits(n / 10);
    }
  }

  /** After the minus sign of a negative number come the digits of its magnitude. */
  lemma SignDropped(i: int)
    requires i < 0
    ensures IntToString(i)[1..] == Digits(-i)
  {
    var d := Digits(-i);
    assert ("-" + d)[1..] == d;
  }

  /** `IntToString` loses nothing: the sign and the digits give back the number. */
  lemma {:induction false} IntToStringRoundTrip(i: int)
    ensures i < 0 ==> -DigitsValue(IntToString(i)[1..]) == i
    ensures i >= 0 ==> DigitsValue(IntToString(i)) == i
  {
    if i < 0 {
      var d := Digits(-i);
      DigitsRoundTrip(-i);
      SignDropped(i);
      assert DigitsValue(IntToString(i)[1..]) == DigitsValue(d) == -i;
    } else {
      DigitsRoundTrip(i);
    }
  }
}
