/**
  The string operations the code generator relies on: decimal rendering of
  integers (what a template literal `${n}` produces), `Array.prototype.join`,
  `String.prototype.trim` and `String.prototype.replace` with a string pattern.
  Each comes with the inverse or characterisation that the generator's
  properties are stated through: decimal parsing, splitting on one character,
  and the exact prefix/suffix a trim removes.
*/
module Text {
  import opened Wrappers

  predicate IsDigit(ch: char) {
    '0' <= ch <= '9'
  }

  predicate AllDigits(s: string) {
    forall i :: 0 <= i < |s| ==> IsDigit(s[i])
  }

  function DigitValue(ch: char): (d: nat)
    requires IsDigit(ch)
    ensures d < 10
  {
    ch as int - '0' as int
  }

  function DigitChar(d: nat): (ch: char)
    requires d < 10
    ensures IsDigit(ch) && DigitValue(ch) == d
  {
    ('0' as int + d) as char
  }

  /** Decimal rendering of a natural number, most significant digit first. */
  function NatToString(n: nat): (s: string)
    ensures |s| >= 1 && AllDigits(s)
    ensures s[0] == '0' ==> n == 0 && |s| == 1
    decreases n
  {
    if n < 10 then [DigitChar(n)]
    else NatToString(n / 10) + [DigitChar(n % 10)]
  }

  /** The number a string of decimal digits denotes. */
  function DigitsValue(s: string): nat
    requires AllDigits(s)
  {
    if |s| == 0 then 0
    else 10 * DigitsValue(s[..|s| - 1]) + DigitValue(s[|s| - 1])
  }

  /** Reads a non-empty string of decimal digits; anything else is rejected. */
  function ParseNat(s: string): Option<nat> {
    if |s| > 0 && AllDigits(s) then Some(DigitsValue(s)) else None
  }

  /**
    A numeral as `${n}` writes an integer: an optional '-', then digits
    without a leading zero, except the numeral "0" itself; never "-0".
  */
  predicate Canonical(s: string) {
    |s| > 0 &&
    if s[0] == '-' then |s| > 1 && s[1] != '0' else s[0] != '0' || |s| == 1
  }

  /**
    Decimal rendering of an integer, with a leading '-' for negatives, as
    `${n}` renders it for |n| < 10^21 (JavaScript switches to exponent
    notation from there on).
  */
  function IntToString(n: int): (s: string)
    ensures Canonical(s)
  {
    if n < 0 then "-" + NatToString(-n) else NatToString(n)
  }

  /** Reads an optional '-' followed by decimal digits. */
  function ParseInt(s: string): Option<int> {
    if |s| > 0 && s[0] == '-' then
      match ParseNat(s[1..])
      case Some(v) => Some(0 - v)
      case None => None
    else
      match ParseNat(s)
      case Some(v) => Some(v)
      case None => None
  }

  lemma {:induction false} NatToStringRoundTrip(n: nat)
    ensures ParseNat(NatToString(n)) == Some(n)
    decreases n
  {
    var s := NatToString(n);
    if n >= 10 {
      NatToStringRoundTrip(n / 10);
      assert s[..|s| - 1] == NatToString(n / 10);
      assert DigitsValue(s) == 10 * (n / 10) + n % 10;
    } else {
      assert DigitsValue(s) == 10 * DigitsValue([]) + n;
    }
  }

  lemma IntToStringRoundTrip(n: int)
    ensures ParseInt(IntToString(n)) == Some(n)
  {
    var s := IntToString(n);
    if n < 0 {
      NatToStringRoundTrip(-n);
      assert s == "-" + NatToString(-n);
      assert s[0] == '-' && s[1..] == NatToString(-n);
    } else {
      NatToStringRoundTrip(n);
      assert s == NatToString(n) && IsDigit(s[0]);
    }
  }

  /** A run of digits without a leading zero is the rendering of the number it denotes. */
  lemma {:induction false} DigitsAreRendering(s: string)
    requires |s| > 0 && AllDigits(s) && (s[0] == '0' ==> |s| == 1)
    ensures s == NatToString(DigitsValue(s))
    decreases |s|
  {
    var v := DigitsValue(s);
    var d := DigitValue(s[|s| - 1]);
    if |s| == 1 {
      assert s[..|s| - 1] == [];
      assert DigitsValue(s[..|s| - 1]) == 0;
      assert v == d;
      assert [DigitChar(d)] == s;
    } else {
      var p := s[..|s| - 1];
      assert AllDigits(p) && p[0] == s[0];
      DigitsAreRendering(p);
      var vp := DigitsValue(p);
      assert vp != 0;
      assert v == 10 * vp + d;
      assert v / 10 == vp && v % 10 == d;
      assert DigitChar(d) == s[|s| - 1];
      assert s == p + [s[|s| - 1]];
    }
  }

  /**
    A canonical numeral is determined by the number it reads as: it is the
    rendering of that number, so no other spelling (leading zeros, "-0")
    satisfies both.
  */
  lemma CanonicalUnique(s: string, n: int)
    requires Canonical(s) && ParseInt(s) == Some(n)
    ensures s == IntToString(n)
  {
    if s[0] == '-' {
      var t := s[1..];
      assert ParseNat(t).Some? && n == 0 - ParseNat(t).value;
      DigitsAreRendering(t);
      assert n < 0;
      assert s == "-" + t;
    } else {
      DigitsAreRendering(s);
    }
  }

  /** `parts.join(sep)`: the parts with `sep` between neighbours. */
  function Join(parts: seq<string>, sep: string): string {
    if |parts| == 0 then ""
    else if |parts| == 1 then parts[0]
    else parts[0] + sep + Join(parts[1..], sep)
  }

  /** `s.split(c)` for a one-character separator: the maximal runs between separators. */
  function Split(s: string, c: char): (parts: seq<string>)
    ensures |parts| >= 1
    decreases |s|
  {
    if |s| == 0 then [""]
    else
      var rest := Split(s[1..], c);
      if s[0] == c then [""] + rest
      else [[s[0]] + rest[0]] + rest[1..]
  }

  lemma {:induction false} SplitWithoutSeparator(x: string, c: char)
    requires c !in x
    ensures Split(x, c) == [x]
    decreases |x|
  {
    if |x| > 0 {
      assert c !in x[1..] by {
        forall i | 0 <= i < |x[1..]| ensures x[1..][i] != c {
          assert x[1..][i] == x[i + 1];
        }
      }
      SplitWithoutSeparator(x[1..], c);
      assert [x[0]] + x[1..] == x;
    }
  }

  lemma {:induction false} SplitAtFirstSeparator(x: string, y: string, c: char)
    requires c !in x
    ensures Split(x + [c] + y, c) == [x] + Split(y, c)
    decreases |x|
  {
    var s := x + [c] + y;
    if |x| == 0 {
      assert s[0] == c && s[1..] == y;
    } else {
      assert c !in x[1..] by {
        forall i | 0 <= i < |x[1..]| ensures x[1..][i] != c {
          assert x[1..][i] == x[i + 1];
        }
      }
      SplitAtFirstSeparator(x[1..], y, c);
      assert s[1..] == x[1..] + [c] + y;
      assert s[0] == x[0] && s[0] != c;
      assert [x[0]] + x[1..] == x;
    }
  }

  /** Splitting a join recovers the parts, provided no part contains the separator. */
  lemma {:induction false} SplitJoin(parts: seq<string>, c: char)
    requires |parts| >= 1
    requires forall i :: 0 <= i < |parts| ==> c !in parts[i]
    ensures Split(Join(parts, [c]), c) == parts
    decreases |parts|
  {
    if |parts| == 1 {
      SplitWithoutSeparator(parts[0], c);
    } else {
      SplitJoin(parts[1..], c);
      SplitAtFirstSeparator(parts[0], Join(parts[1..], [c]), c);
      assert [parts[0]] + parts[1..] == parts;
    }
  }

  /** The white-space characters `trim` removes that can occur in generated text. */
  predicate IsSpace(ch: char) {
    ch == ' ' || ch == '\t' || ch == '\n' || ch == '\r'
  }

  function TrimStart(s: string): (r: string)
    ensures |r| <= |s| && r == s[|s| - |r|..]
    ensures forall i :: 0 <= i < |s| - |r| ==> IsSpace(s[i])
    ensures |r| > 0 ==> !IsSpace(r[0])
    decreases |s|
  {
    if |s| > 0 && IsSpace(s[0]) then TrimStart(s[1..]) else s
  }

  function TrimEnd(s: string): (r: string)
    ensures |r| <= |s| && r == s[..|r|]
    ensures forall i :: |r| <= i < |s| ==> IsSpace(s[i])
    ensures |r| > 0 ==> !IsSpace(r[|r| - 1])
    decreases |s|
  {
    if |s| > 0 && IsSpace(s[|s| - 1]) then TrimEnd(s[..|s| - 1]) else s
  }

  /** `s.trim()`: drops leading and trailing white space. */
  function Trim(s: string): string {
    TrimEnd(TrimStart(s))
  }

  /** `s.replace(pat, rep)` with a string pattern: only the first occurrence is replaced. */
  function ReplaceFirst(s: string, pat: string, rep: string): string
    decreases |s|
  {
    if pat <= s then rep + s[|pat|..]
    else if |s| == 0 then s
    else [s[0]] + ReplaceFirst(s[1..], pat, rep)
  }

  /** A token: non-empty and free of white space. */
  predicate IsToken(t: string) {
    |t| > 0 && ' ' !in t && '\t' !in t && '\n' !in t && '\r' !in t
  }

  /** Two tokens written together are one token. */
  lemma TokenConcat(a: string, b: string)
    requires IsToken(a) && IsToken(b)
    ensures IsToken(a + b)
  {
  }

  /** Dropping a proper prefix of a token leaves a token. */
  lemma TokenSuffix(t: string, n: nat)
    requires IsToken(t) && n < |t|
    ensures IsToken(t[n..])
  {
  }

  /** A non-empty run of digits is a token. */
  lemma DigitsAreToken(s: string)
    requires |s| > 0 && AllDigits(s)
    ensures IsToken(s)
  {
  }

  lemma IntToStringIsToken(n: int)
    ensures IsToken(IntToString(n))
  {
    if n < 0 {
      DigitsAreToken(NatToString(-n));
    } else {
      DigitsAreToken(NatToString(n));
    }
  }

  /** A character in neither the parts nor the separator is not in their join. */
  lemma {:induction false} JoinExcludes(parts: seq<string>, sep: string, c: char)
    requires c !in sep
    requires forall i :: 0 <= i < |parts| ==> c !in parts[i]
    ensures c !in Join(parts, sep)
    decreases |parts|
  {
    if |parts| > 1 {
      JoinExcludes(parts[1..], sep, c);
    }
  }

  lemma {:induction false} JoinAppend(xs: seq<string>, ys: seq<string>, sep: string)
    requires |xs| > 0 && |ys| > 0
    ensures Join(xs + ys, sep) == Join(xs, sep) + sep + Join(ys, sep)
    decreases |xs|
  {
    if |xs| == 1 {
      assert (xs + ys)[1..] == ys;
    } else {
      assert (xs + ys)[1..] == xs[1..] + ys;
      JoinAppend(xs[1..], ys, sep);
    }
  }

  /**
    Tokens each followed by one space: the string a loop of
    `classes += token + " "` accumulates.
  */
  function Spaced(parts: seq<string>): string {
    if |parts| == 0 then "" else parts[0] + " " + Spaced(parts[1..])
  }

  lemma {:induction false} SpacedAppend(xs: seq<string>, ys: seq<string>)
    ensures Spaced(xs + ys) == Spaced(xs) + Spaced(ys)
    decreases |xs|
  {
    if |xs| == 0 {
      assert xs + ys == ys;
    } else {
      assert (xs + ys)[1..] == xs[1..] + ys;
      SpacedAppend(xs[1..], ys);
    }
  }

  /** A head word followed by two runs: the word and its space, then each run spaced. */
  lemma SpacedHeaded(head: string, xs: seq<string>, ys: seq<string>)
    ensures Spaced([head] + xs + ys) == head + " " + Spaced(xs) + Spaced(ys)
  {
    SpacedAppend([head] + xs, ys);
    SpacedAppend([head], xs);
    assert Spaced([head]) == head + " " + Spaced([]);
  }

  lemma {:induction false} SpacedIsJoin(parts: seq<string>)
    requires |parts| > 0
    ensures Spaced(parts) == Join(parts, " ") + " "
    decreases |parts|
  {
    if |parts| > 1 {
      SpacedIsJoin(parts[1..]);
    }
  }

  lemma {:induction false} JoinEnds(parts: seq<string>, sep: string)
    requires |parts| >= 1
    requires forall i :: 0 <= i < |parts| ==> |parts[i]| > 0
    ensures var j := Join(parts, sep); var last := parts[|parts| - 1];
      |j| > 0 && j[0] == parts[0][0] && j[|j| - 1] == last[|last| - 1]
    decreases |parts|
  {
    if |parts| > 1 {
      var rest := parts[1..];
      assert rest[|rest| - 1] == parts[|parts| - 1];
      assert forall i :: 0 <= i < |rest| ==> rest[i] == parts[i + 1];
      JoinEnds(rest, sep);
      var r := Join(rest, sep);
      var j := parts[0] + sep + r;
      assert Join(parts, sep) == j;
      assert j[0] == parts[0][0];
      assert j[|j| - 1] == r[|r| - 1];
    }
  }

  lemma TokenEnds(t: string)
    requires IsToken(t)
    ensures !IsSpace(t[0]) && !IsSpace(t[|t| - 1])
  {
    assert t[0] in t && t[|t| - 1] in t;
  }

  lemma TrimStartKeeps(s: string)
    requires |s| > 0 && !IsSpace(s[0])
    ensures TrimStart(s) == s
  {
  }

  lemma TrimEndDropsOneSpace(j: string)
    requires |j| > 0 && !IsSpace(j[|j| - 1])
    ensures TrimEnd(j + " ") == j
  {
    var s := j + " ";
    assert s[..|s| - 1] == j;
  }

  /**
    Trimming a space-joined token list that carries one trailing space (the
    way the generator accumulates class names) yields exactly the join.
  */
  lemma TrimJoinedTokens(parts: seq<string>)
    requires |parts| >= 1
    requires forall i :: 0 <= i < |parts| ==> IsToken(parts[i])
    ensures Trim(Join(parts, " ") + " ") == Join(parts, " ")
  {
    var j := Join(parts, " ");
    assert IsToken(parts[0]) && IsToken(parts[|parts| - 1]);
    JoinEnds(parts, " ");
    TokenEnds(parts[0]);
    TokenEnds(parts[|parts| - 1]);
    TrimStartKeeps(j + " ");
    TrimEndDropsOneSpace(j);
  }

  /** Every element of the list is a token. */
  predicate AllTokens(parts: seq<string>) {
    forall i :: 0 <= i < |parts| ==> IsToken(parts[i])
  }

  lemma AllTokensAppend(xs: seq<string>, ys: seq<string>)
    requires AllTokens(xs) && AllTokens(ys)
    ensures AllTokens(xs + ys)
  {
    forall i | 0 <= i < |xs + ys| ensures IsToken((xs + ys)[i]) {
      if i >= |xs| {
        assert (xs + ys)[i] == ys[i - |xs|];
      }
    }
  }
}
