/** String helpers with the meaning of the Rust standard library operations the
    core relies on: `strip_prefix`, `split(char)`, `join`, `trim` and `parse::<u16>`. */
module Text {
  import opened Wrappers

  const MaxU16: nat := 65535

  /** `char::is_whitespace`: the Unicode White_Space property. */
  predicate IsWhitespace(c: char)
  {
    ('\U{0009}' <= c <= '\U{000D}') || c == ' ' || c == '\U{0085}' || c == '\U{00A0}'
    || c == '\U{1680}' || ('\U{2000}' <= c <= '\U{200A}') || c == '\U{2028}' || c == '\U{2029}'
    || c == '\U{202F}' || c == '\U{205F}' || c == '\U{3000}'
  }

  /** `str::strip_prefix`: the rest of `s` when it starts with `p`. */
  function StripPrefix(s: string, p: string): (r: Option<string>)
    ensures r.Some? <==> |p| <= |s| && s[..|p|] == p
    ensures r.Some? ==> s == p + r.value
  {
    if |p| <= |s| && s[..|p|] == p then Some(s[|p|..]) else None
  }

  /** `[String]::join(sep)`. */
  function Join(parts: seq<string>, sep: string): string
  {
    if |parts| == 0 then ""
    else if |parts| == 1 then parts[0]
    else parts[0] + sep + Join(parts[1..], sep)
  }

  lemma {:induction false} JoinAppend(parts: seq<string>, x: string, sep: string)
    requires |parts| > 0
    ensures Join(parts + [x], sep) == Join(parts, sep) + sep + x
  {
    if |parts| == 1 {
      assert parts + [x] == [parts[0], x];
      assert ([parts[0], x])[1..] == [x];
    } else {
      assert (parts + [x])[1..] == parts[1..] + [x];
      JoinAppend(parts[1..], x, sep);
    }
  }

  /** Number of occurrences of `c` in `s`. */
  function Count(s: string, c: char): nat
  {
    multiset(s)[c]
  }

  /** `str::split(c)` for a single-character pattern: every piece between separators,
      empty pieces included, so the empty string gives one empty piece. */
  function Split(s: string, c: char): (r: seq<string>)
    ensures |r| >= 1
  {
    if |s| == 0 then [""]
    else
      var rest := Split(s[1..], c);
      if s[0] == c then [""] + rest
      else [[s[0]] + rest[0]] + rest[1..]
  }

  /** Joining the pieces with the separator gives back the original string. */
  lemma {:induction false} SplitJoin(s: string, c: char)
    ensures Join(Split(s, c), [c]) == s
  {
    if |s| > 0 {
      var rest := Split(s[1..], c);
      SplitJoin(s[1..], c);
      if s[0] == c {
        assert ([""] + rest)[1..] == rest;
      } else if |rest| > 1 {
        assert ([[s[0]] + rest[0]] + rest[1..])[1..] == rest[1..];
      }
    }
  }

  /** A string without the separator is a single piece. */
  lemma {:induction false} SplitNoSeparator(s: string, c: char)
    requires c !in s
    ensures Split(s, c) == [s]
  {
    if |s| > 0 {
      SplitNoSeparator(s[1..], c);
      assert [s[0]] + s[1..] == s;
    }
  }

  /** The first separator ends the first piece. */
  lemma {:induction false} SplitAtFirst(a: string, b: string, c: char)
    requires c !in a
    ensures Split(a + [c] + b, c) == [a] + Split(b, c)
  {
    if |a| > 0 {
      SplitAtFirst(a[1..], b, c);
      assert (a + [c] + b)[1..] == a[1..] + [c] + b;
      assert [a[0]] + a[1..] == a;
    } else {
      assert a + [c] + b == [c] + b;
      assert ([c] + b)[1..] == b;
    }
  }

  /** There is one piece more than there are separators. */
  lemma {:induction false} SplitCount(s: string, c: char)
    ensures |Split(s, c)| == Count(s, c) + 1
  {
    if |s| > 0 {
      SplitCount(s[1..], c);
      assert s == [s[0]] + s[1..];
      assert multiset(s) == multiset([s[0]]) + multiset(s[1..]);
    }
  }

  /** No piece contains the separator. */
  lemma {:induction false} SplitPiecesFree(s: string, c: char, i: nat, j: nat)
    requires i < |Split(s, c)| && j < |Split(s, c)[i]|
    ensures Split(s, c)[i][j] != c
  {
    if |s| > 0 {
      var rest := Split(s[1..], c);
      if s[0] == c {
        SplitPiecesFree(s[1..], c, i - 1, j);
      } else if i == 0 {
        if j > 0 { SplitPiecesFree(s[1..], c, 0, j - 1); }
      } else {
        SplitPiecesFree(s[1..], c, i, j);
      }
    }
  }

  /** `str::trim_start`. */
  function TrimStart(s: string): (r: string)
    ensures |r| <= |s| && r == s[|s| - |r|..]
    ensures forall i :: 0 <= i < |s| - |r| ==> IsWhitespace(s[i])
    ensures r == [] || !IsWhitespace(r[0])
  {
    if |s| > 0 && IsWhitespace(s[0]) then TrimStart(s[1..]) else s
  }

  /** `str::trim_end`. */
  function TrimEnd(s: string): (r: string)
    ensures |r| <= |s| && r == s[..|r|]
    ensures forall i :: |r| <= i < |s| ==> IsWhitespace(s[i])
    ensures r == [] || !IsWhitespace(r[|r| - 1])
  {
    if |s| > 0 && IsWhitespace(s[|s| - 1]) then TrimEnd(s[..|s| - 1]) else s
  }

  /** `str::trim`: the longest inner slice with no white space at either end. */
  function Trim(s: string): string
  {
    TrimEnd(TrimStart(s))
  }

  /** The slice left after dropping white space from the front (giving `t`) and then
      from the back (giving `r`): `r` is `s[lo..hi]` with only white space outside it. */
  lemma {:induction false} InnerSlice(s: string, t: string, r: string) returns (lo: nat, hi: nat)
    requires |t| <= |s| && t == s[|s| - |t|..]
    requires |r| <= |t| && r == t[..|r|]
    requires forall i :: 0 <= i < |s| - |t| ==> IsWhitespace(s[i])
    requires forall j :: |r| <= j < |t| ==> IsWhitespace(t[j])
    requires t == [] || !IsWhitespace(t[0])
    requires r == [] || !IsWhitespace(r[|r| - 1])
    ensures lo <= hi <= |s| && r == s[lo..hi]
    ensures forall i :: 0 <= i < lo ==> IsWhitespace(s[i])
    ensures forall i :: hi <= i < |s| ==> IsWhitespace(s[i])
    ensures r == [] || (!IsWhitespace(r[0]) && !IsWhitespace(r[|r| - 1]))
  {
    lo := |s| - |t|;
    hi := lo + |r|;
    forall i | hi <= i < |s|
      ensures IsWhitespace(s[i])
    {
      assert s[i] == t[i - lo];
    }
    if r != [] {
      assert r[0] == t[0];
    }
  }

  /** Trim removes exactly leading and trailing white space: the result is the slice
      `s[lo..hi]`, everything outside it is white space, and it neither starts nor ends
      with white space. */
  lemma {:induction false} TrimIsInnerSlice(s: string) returns (lo: nat, hi: nat)
    ensures lo <= hi <= |s| && Trim(s) == s[lo..hi]
    ensures forall i :: 0 <= i < lo ==> IsWhitespace(s[i])
    ensures forall i :: hi <= i < |s| ==> IsWhitespace(s[i])
    ensures Trim(s) == [] || (!IsWhitespace(Trim(s)[0]) && !IsWhitespace(Trim(s)[|Trim(s)| - 1]))
  {
    lo, hi := InnerSlice(s, TrimStart(s), TrimEnd(TrimStart(s)));
  }

  /** A string that neither starts nor ends with white space is its own trim. */
  lemma {:induction false} TrimUnchanged(s: string)
    requires s == [] || (!IsWhitespace(s[0]) && !IsWhitespace(s[|s| - 1]))
    ensures Trim(s) == s
  {
  }

  predicate IsDigit(c: char)
  {
    '0' <= c <= '9'
  }

  predicate AllDigits(s: string)
  {
    forall i :: 0 <= i < |s| ==> IsDigit(s[i])
  }

  /** Value of a string of decimal digits, most significant first. */
  function DigitsValue(s: string): nat
    requires AllDigits(s)
  {
    if |s| == 0 then 0
    else DigitsValue(s[..|s| - 1]) * 10 + (s[|s| - 1] as int - '0' as int)
  }

  /** Decimal rendering of a natural number, as `to_string` / `{}` print it. */
  function NatToString(n: nat): (r: string)
    ensures |r| >= 1 && AllDigits(r) && DigitsValue(r) == n
    ensures |r| > 1 ==> r[0] != '0'
  {
    var d := [('0' as int + n % 10) as char];
    if n < 10 then d
    else
      var r := NatToString(n / 10) + d;
      assert r[..|r| - 1] == NatToString(n / 10);
      r
  }

  /** `str::parse::<u16>`: an optional '+', then one or more ASCII digits whose value
      is at most 65535. No '-', no white space, no empty string. */
  function ParseU16(s: string): (r: Option<nat>)
    ensures r.Some? ==> r.value <= MaxU16
    ensures s == "" || s == "+" ==> r.None?
    ensures |s| > 0 && s[0] == '-' ==> r.None?
    ensures r.Some? ==> forall i :: 0 < i < |s| ==> IsDigit(s[i])
    ensures r.Some? ==> |s| > 0 && (s[0] == '+' || IsDigit(s[0]))
  {
    var digits := if |s| > 0 && s[0] == '+' then s[1..] else s;
    if |digits| > 0 && AllDigits(digits) && DigitsValue(digits) <= MaxU16
    then Some(DigitsValue(digits))
    else None
  }

  /** A non-empty string of digits, with or without a leading '+' and with any number
      of leading zeros, reads as its decimal value when that fits in a u16, and is
      refused otherwise. */
  lemma ParseU16Digits(d: string)
    requires |d| > 0 && AllDigits(d)
    ensures ParseU16(d) == ParseU16("+" + d)
    ensures ParseU16(d) == if DigitsValue(d) <= MaxU16 then Some(DigitsValue(d)) else None
  {
    assert ("+" + d)[1..] == d;
    assert d[0] != '+' by { assert IsDigit(d[0]); }
  }

  /** Every u16 printed in decimal parses back to itself. */
  lemma ParseU16RoundTrip(n: nat)
    requires n <= MaxU16
    ensures ParseU16(NatToString(n)) == Some(n)
  {
    var r := NatToString(n);
    assert r[0] != '+' by { assert IsDigit(r[0]); }
  }

  /** Every value above the u16 range is refused. */
  lemma ParseU16RejectsOverflow(n: nat)
    requires n > MaxU16
    ensures ParseU16(NatToString(n)) == None
  {
    var r := NatToString(n);
    assert r[0] != '+' by { assert IsDigit(r[0]); }
  }
}
