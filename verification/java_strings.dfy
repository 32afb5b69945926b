/** The few java.lang.String and java.lang.Integer operations the entity
    format and the version string rely on, with Java's exact edge cases:
    `contains`, `replaceAll("\\s+", "")`, `replace(";", "")`, `trim()`,
    `split` on a one-character pattern (which drops trailing empty pieces),
    `Integer.valueOf` and `Integer.toString`. */
module JavaStrings {
  import opened Wrappers

  // ---------------------------------------------------------------------
  // Searching
  // ---------------------------------------------------------------------

  /** `s.contains(p)`: p occurs in s as a contiguous run. */
  function Contains(s: string, p: string): bool
    decreases |s|
  {
    |p| <= |s| && (s[..|p|] == p || Contains(s[1..], p))
  }

  /** A one-character pattern is contained exactly when the character occurs. */
  lemma {:induction false} ContainsChar(s: string, c: char)
    ensures Contains(s, [c]) <==> c in s
    decreases |s|
  {
    if |s| > 0 {
      ContainsChar(s[1..], c);
      assert s == [s[0]] + s[1..];
    }
  }

  /** A pattern placed anywhere in a string is found by `contains`. */
  lemma {:induction false} ContainsOccurrence(a: string, p: string, b: string)
    ensures Contains(a + p + b, p)
    decreases |a|
  {
    var s := a + p + b;
    if |a| == 0 {
      assert s[..|p|] == p;
    } else {
      assert s[1..] == a[1..] + p + b;
      ContainsOccurrence(a[1..], p, b);
    }
  }

  /** A pattern holding a character the string lacks is never found. */
  lemma {:induction false} MissingCharNotContained(s: string, p: string, c: char)
    requires c in p && c !in s
    ensures !Contains(s, p)
    decreases |s|
  {
    if |p| <= |s| {
      assert forall x :: x in s[1..] ==> x in s;
      MissingCharNotContained(s[1..], p, c);
    }
  }

  // ---------------------------------------------------------------------
  // Removing characters
  // ---------------------------------------------------------------------

  /** The characters matched by `\s` in a Java regular expression: the
      space and the control characters tab (9) through carriage return (13). */
  predicate IsWhitespace(c: char) {
    c == ' ' || '\t' <= c <= '\r'
  }

  predicate NoWhitespace(s: string) {
    forall i :: 0 <= i < |s| ==> !IsWhitespace(s[i])
  }

  /** `s.replaceAll("\\s+", "")`: s without any whitespace character. */
  function StripWhitespace(s: string): (r: string)
    ensures NoWhitespace(r)
    ensures |r| <= |s|
    decreases |s|
  {
    if |s| == 0 then ""
    else if IsWhitespace(s[0]) then StripWhitespace(s[1..])
    else [s[0]] + StripWhitespace(s[1..])
  }

  /** `s.replace(x, "")` for a one-character x: s without any x. */
  function RemoveChar(s: string, x: char): (r: string)
    ensures x !in r
    ensures |r| <= |s|
    decreases |s|
  {
    if |s| == 0 then ""
    else if s[0] == x then RemoveChar(s[1..], x)
    else [s[0]] + RemoveChar(s[1..], x)
  }

  /** Exactly the non-whitespace characters of s survive. */
  lemma {:induction false} StripWhitespaceChars(s: string)
    ensures forall c :: c in StripWhitespace(s) <==> c in s && !IsWhitespace(c)
    decreases |s|
  {
    if |s| > 0 {
      StripWhitespaceChars(s[1..]);
      assert s == [s[0]] + s[1..];
    }
  }

  /** Exactly the characters of s other than x survive. */
  lemma {:induction false} RemoveCharChars(s: string, x: char)
    ensures forall c :: c in RemoveChar(s, x) <==> c in s && c != x
    decreases |s|
  {
    if |s| > 0 {
      RemoveCharChars(s[1..], x);
      assert s == [s[0]] + s[1..];
    }
  }

  lemma {:induction false} StripWhitespaceAppend(a: string, b: string)
    ensures StripWhitespace(a + b) == StripWhitespace(a) + StripWhitespace(b)
    decreases |a|
  {
    if |a| > 0 {
      assert (a + b)[0] == a[0] && (a + b)[1..] == a[1..] + b;
      StripWhitespaceAppend(a[1..], b);
      if !IsWhitespace(a[0]) {
        assert StripWhitespace(a + b) == [a[0]] + StripWhitespace(a[1..] + b);
        assert StripWhitespace(a) == [a[0]] + StripWhitespace(a[1..]);
      }
    } else {
      assert a + b == b;
    }
  }

  /** Stripping whitespace leaves a whitespace-free string untouched. */
  lemma {:induction false} StripWhitespaceKeeps(s: string)
    requires NoWhitespace(s)
    ensures StripWhitespace(s) == s
    decreases |s|
  {
    if |s| > 0 {
      StripWhitespaceKeeps(s[1..]);
      assert s == [s[0]] + s[1..];
    }
  }

  lemma {:induction false} RemoveCharAppend(a: string, b: string, x: char)
    ensures RemoveChar(a + b, x) == RemoveChar(a, x) + RemoveChar(b, x)
    decreases |a|
  {
    if |a| > 0 {
      assert (a + b)[0] == a[0] && (a + b)[1..] == a[1..] + b;
      RemoveCharAppend(a[1..], b, x);
      if a[0] != x {
        assert RemoveChar(a + b, x) == [a[0]] + RemoveChar(a[1..] + b, x);
        assert RemoveChar(a, x) == [a[0]] + RemoveChar(a[1..], x);
      }
    } else {
      assert a + b == b;
    }
  }

  /** Removing a character the string lacks leaves it untouched. */
  lemma {:induction false} RemoveCharKeeps(s: string, x: char)
    requires x !in s
    ensures RemoveChar(s, x) == s
    decreases |s|
  {
    if |s| > 0 {
      assert s == [s[0]] + s[1..];
      RemoveCharKeeps(s[1..], x);
    }
  }

  // ---------------------------------------------------------------------
  // trim()
  // ---------------------------------------------------------------------

  /** Every character of s is above U+0020, so `trim()` cannot touch it. */
  predicate Printable(s: string) {
    forall i :: 0 <= i < |s| ==> s[i] > ' '
  }

  function TrimStart(s: string): (r: string)
    ensures |r| <= |s| && r == s[|s| - |r|..]
    ensures |r| == 0 || r[0] > ' '
    ensures forall i :: 0 <= i < |s| - |r| ==> s[i] <= ' '
    decreases |s|
  {
    if |s| > 0 && s[0] <= ' ' then TrimStart(s[1..]) else s
  }

  function TrimEnd(s: string): (r: string)
    ensures |r| <= |s| && r == s[..|r|]
    ensures |r| == 0 || r[|r| - 1] > ' '
    ensures forall i :: |r| <= i < |s| ==> s[i] <= ' '
    decreases |s|
  {
    if |s| > 0 && s[|s| - 1] <= ' ' then TrimEnd(s[..|s| - 1]) else s
  }

  /** Java's `trim()`: s without its leading and trailing characters at or
      below U+0020. */
  function Trim(s: string): (r: string)
    ensures |r| == 0 || (r[0] > ' ' && r[|r| - 1] > ' ')
    ensures exists i, j :: 0 <= i <= j <= |s| && r == s[i..j]
                           && (forall k :: 0 <= k < i ==> s[k] <= ' ')
                           && (forall k :: j <= k < |s| ==> s[k] <= ' ')
    ensures Printable(s) ==> r == s
  {
    var t := TrimStart(s);
    var r := TrimEnd(t);
    TrimSlice(s, t, r);
    r
  }

  /** The slice `trim()` keeps, given the two halves of its computation. */
  lemma TrimSlice(s: string, t: string, r: string)
    requires |t| <= |s| && t == s[|s| - |t|..]
    requires forall k :: 0 <= k < |s| - |t| ==> s[k] <= ' '
    requires |r| <= |t| && r == t[..|r|]
    requires forall k :: |r| <= k < |t| ==> t[k] <= ' '
    ensures exists i, j :: 0 <= i <= j <= |s| && r == s[i..j]
                           && (forall k :: 0 <= k < i ==> s[k] <= ' ')
                           && (forall k :: j <= k < |s| ==> s[k] <= ' ')
  {
    var i := |s| - |t|;
    var j := i + |r|;
    assert r == s[i..j];
    forall k | j <= k < |s|
      ensures s[k] <= ' '
    {
      assert s[k] == t[k - i];
    }
  }

  /** A character of the trimmed string is a character of the string. */
  lemma TrimChars(s: string, c: char)
    requires c in Trim(s)
    ensures c in s
  {
    var i, j :| 0 <= i <= j <= |s| && Trim(s) == s[i..j];
    SliceChars(s, i, j, c);
  }

  lemma SliceChars(s: string, i: int, j: int, c: char)
    requires 0 <= i <= j <= |s| && c in s[i..j]
    ensures c in s
  {
    var k :| 0 <= k < j - i && s[i..j][k] == c;
    assert s[i + k] == c;
  }

  // ---------------------------------------------------------------------
  // split
  // ---------------------------------------------------------------------

  /** Position of the first occurrence of c. */
  function IndexOf(s: string, c: char): (i: nat)
    requires c in s
    ensures i < |s| && s[i] == c && c !in s[..i]
    decreases |s|
  {
    if s[0] == c then 0
    else
      var j := IndexOf(s[1..], c);
      assert s[..j + 1] == [s[0]] + s[1..][..j];
      1 + j
  }

  /** The pieces joined back together with sep between neighbours. */
  function Join(xs: seq<string>, sep: char): string
    decreases |xs|
  {
    if |xs| == 0 then ""
    else if |xs| == 1 then xs[0]
    else xs[0] + [sep] + Join(xs[1..], sep)
  }

  /** The pieces of s between occurrences of sep, every empty piece kept.
      Joining them with sep gives s back. */
  function Fields(s: string, sep: char): (r: seq<string>)
    ensures |r| >= 1
    ensures forall i :: 0 <= i < |r| ==> sep !in r[i]
    ensures Join(r, sep) == s
    decreases |s|
  {
    if sep !in s then [s]
    else
      var i := IndexOf(s, sep);
      var rest := Fields(s[i + 1..], sep);
      assert s == s[..i] + [sep] + s[i + 1..];
      [s[..i]] + rest
  }

  /** xs without its trailing run of empty strings. */
  function DropTrailingEmpty(xs: seq<string>): (r: seq<string>)
    ensures r <= xs
    ensures |r| == 0 || r[|r| - 1] != ""
    ensures forall i :: |r| <= i < |xs| ==> xs[i] == ""
    decreases |xs|
  {
    if |xs| > 0 && xs[|xs| - 1] == "" then DropTrailingEmpty(xs[..|xs| - 1]) else xs
  }

  /** Java's `s.split(p)` where p matches one literal character sep and the
      limit is 0: when sep does not occur the result is `[s]` (so `""`
      gives `[""]`); otherwise the pieces between separators with trailing
      empty pieces removed (so `"1.0,2.0,"` gives two pieces and `",,"`
      gives none). */
  function Split(s: string, sep: char): (r: seq<string>)
    ensures sep !in s ==> r == [s]
    ensures sep in s ==> |r| == 0 || r[|r| - 1] != ""
    ensures forall i :: 0 <= i < |r| ==> sep !in r[i]
  {
    if sep !in s then [s] else DropTrailingEmpty(Fields(s, sep))
  }

  lemma {:induction false} JoinSnoc(xs: seq<string>, y: string, sep: char)
    requires |xs| >= 1
    ensures Join(xs + [y], sep) == Join(xs, sep) + [sep] + y
    decreases |xs|
  {
    if |xs| > 1 {
      assert (xs + [y])[1..] == xs[1..] + [y];
      JoinSnoc(xs[1..], y, sep);
    }
  }

  /** Dropping trailing empty pieces only removes separators from the end
      of the joined text. */
  lemma {:induction false} DropTrailingEmptyJoin(xs: seq<string>, sep: char)
    ensures Join(DropTrailingEmpty(xs), sep) <= Join(xs, sep)
    ensures forall i :: |Join(DropTrailingEmpty(xs), sep)| <= i < |Join(xs, sep)| ==> Join(xs, sep)[i] == sep
    decreases |xs|
  {
    if |xs| > 0 && xs[|xs| - 1] == "" {
      var ys := xs[..|xs| - 1];
      var d := Join(DropTrailingEmpty(ys), sep);
      var j := Join(ys, sep);
      assert DropTrailingEmpty(xs) == DropTrailingEmpty(ys);
      DropTrailingEmptyJoin(ys, sep);
      assert xs == ys + [""];
      if |ys| >= 1 {
        JoinSnoc(ys, "", sep);
        assert Join(xs, sep) == j + [sep];
      } else {
        assert Join(xs, sep) == "";
      }
    }
  }

  /** `split` is undone by joining, up to the separators it dropped at the end:
      the joined pieces are a prefix of s and the rest of s is separators. */
  lemma SplitThenJoin(s: string, sep: char)
    ensures Join(Split(s, sep), sep) <= s
    ensures forall i :: |Join(Split(s, sep), sep)| <= i < |s| ==> s[i] == sep
  {
    if sep in s {
      DropTrailingEmptyJoin(Fields(s, sep), sep);
    }
  }

  /** The first piece of `t + sep + rest`, for t without sep, is t. */
  lemma FieldsAfterFirst(t: string, sep: char, rest: string)
    requires sep !in t
    ensures Fields(t + [sep] + rest, sep) == [t] + Fields(rest, sep)
  {
    var s := t + [sep] + rest;
    assert s[|t|] == sep;
    var i := IndexOf(s, sep);
    assert i == |t|;
    assert s[..i] == t && s[i + 1..] == rest;
  }

  /** Splitting pieces joined with sep gives every piece back, empty ones
      included. */
  lemma {:induction false} FieldsOfJoin(ts: seq<string>, sep: char)
    requires |ts| >= 1
    requires forall i :: 0 <= i < |ts| ==> sep !in ts[i]
    ensures Fields(Join(ts, sep), sep) == ts
    decreases |ts|
  {
    if |ts| > 1 {
      FieldsOfJoin(ts[1..], sep);
      FieldsAfterFirst(ts[0], sep, Join(ts[1..], sep));
      assert ts == [ts[0]] + ts[1..];
    }
  }

  /** `split` undoes joining when no piece holds sep and the last piece is
      not empty. */
  lemma SplitJoin(ts: seq<string>, sep: char)
    requires |ts| >= 1 && ts[|ts| - 1] != ""
    requires forall i :: 0 <= i < |ts| ==> sep !in ts[i]
    ensures Split(Join(ts, sep), sep) == ts
  {
    FieldsOfJoin(ts, sep);
    if |ts| > 1 {
      var s := Join(ts, sep);
      assert s == ts[0] + [sep] + Join(ts[1..], sep);
      assert s[|ts[0]|] == sep;
    }
  }

  /** Splitting `k + sep + v` gives the two pieces when neither holds sep and
      v is not empty. */
  lemma SplitPair(k: string, v: string, sep: char)
    requires sep !in k && sep !in v && v != ""
    ensures Split(k + [sep] + v, sep) == [k, v]
  {
    FieldsAfterFirst(k, sep, v);
    assert (k + [sep] + v)[|k|] == sep;
  }

  /** Every token followed by sep: the writer's `value,value,value,` layout. */
  function Terminated(ts: seq<string>, sep: char): string
    decreases |ts|
  {
    if |ts| == 0 then "" else ts[0] + [sep] + Terminated(ts[1..], sep)
  }

  lemma AppendAssoc<T>(a: seq<T>, b: seq<T>, c: seq<T>)
    ensures a + b + c == a + (b + c)
  {
  }

  lemma {:induction false} FieldsOfTerminated(ts: seq<string>, sep: char)
    requires forall i :: 0 <= i < |ts| ==> sep !in ts[i]
    ensures Fields(Terminated(ts, sep), sep) == ts + [""]
    decreases |ts|
  {
    if |ts| > 0 {
      FieldsOfTerminated(ts[1..], sep);
      FieldsOfTerminatedStep(ts, sep);
    }
  }

  lemma FieldsOfTerminatedStep(ts: seq<string>, sep: char)
    requires |ts| > 0 && sep !in ts[0]
    requires Fields(Terminated(ts[1..], sep), sep) == ts[1..] + [""]
    ensures Fields(Terminated(ts, sep), sep) == ts + [""]
  {
    var t, tail := ts[0], ts[1..];
    var rest := Terminated(tail, sep);
    assert Terminated(ts, sep) == t + [sep] + rest;
    FieldsAfterFirst(t, sep, rest);
    assert ts == [t] + tail;
    AppendAssoc([t], tail, [""]);
  }

  /** The trailing-comma rule: splitting `t1,t2,...,tn,` gives back exactly
      t1..tn when no token is empty or holds the separator. */
  lemma SplitTerminated(ts: seq<string>, sep: char)
    requires |ts| > 0
    requires forall i :: 0 <= i < |ts| ==> sep !in ts[i] && ts[i] != ""
    ensures Split(Terminated(ts, sep), sep) == ts
  {
    FieldsOfTerminated(ts, sep);
    var s := Terminated(ts, sep);
    assert sep in s by {
      assert s == ts[0] + [sep] + Terminated(ts[1..], sep);
      assert s[|ts[0]|] == sep;
    }
    var xs := ts + [""];
    assert xs[..|xs| - 1] == ts;
    assert DropTrailingEmpty(xs) == DropTrailingEmpty(ts);
    assert ts[|ts| - 1] != "";
  }

  // ---------------------------------------------------------------------
  // Integer.valueOf / Integer.toString
  // ---------------------------------------------------------------------

  const INT_MIN: int := -0x8000_0000
  const INT_MAX: int := 0x7fff_ffff

  /** Java's `int`. */
  type int32 = x: int | -0x8000_0000 <= x <= 0x7fff_ffff

  predicate IsDigit(c: char) {
    '0' <= c <= '9'
  }

  predicate AllDigits(s: string) {
    forall i :: 0 <= i < |s| ==> IsDigit(s[i])
  }

  /** The decimal value of a string of digits, read left to right. */
  function DigitsValue(s: string): nat
    requires AllDigits(s)
    decreases |s|
  {
    if |s| == 0 then 0 else DigitsValue(s[..|s| - 1]) * 10 + (s[|s| - 1] as int - '0' as int)
  }

  predicate IsSign(c: char) {
    c == '-' || c == '+'
  }

  /** Text `Integer.valueOf` reads as a number: every character a digit,
      except that the first may be a sign when a digit follows it. */
  predicate Numeral(s: string) {
    && |s| > 0
    && (forall i :: 0 <= i < |s| ==> IsDigit(s[i]) || (i == 0 && IsSign(s[i]) && |s| > 1))
  }

  /** The value a numeral denotes: its digits read in decimal, negated when
      the sign is `-`. */
  function NumeralValue(s: string): int
    requires Numeral(s)
  {
    if IsDigit(s[0]) then DigitsValue(s)
    else
      assert AllDigits(s[1..]) by {
        forall k | 0 <= k < |s| - 1 ensures IsDigit(s[1..][k]) { assert s[1..][k] == s[k + 1]; }
      }
      if s[0] == '-' then -(DigitsValue(s[1..]) as int) else DigitsValue(s[1..])
  }

  /** `Integer.valueOf(s)` in radix 10: an optional `-` or `+`, then one or
      more digits, the value within int range; anything else throws
      NumberFormatException, modelled as None. */
  function ParseInt(s: string): (r: Option<int32>)
    ensures r.Some? <==> Numeral(s) && INT_MIN <= NumeralValue(s) <= INT_MAX
    ensures r.Some? ==> r.value == NumeralValue(s)
    ensures r.Some? && s[0] != '-' ==> r.value >= 0
  {
    var signed := |s| > 0 && (s[0] == '-' || s[0] == '+');
    var digits := if signed then s[1..] else s;
    if |digits| == 0 || !AllDigits(digits) then None
    else
      var magnitude := DigitsValue(digits);
      var v: int := if signed && s[0] == '-' then -(magnitude as int) else magnitude;
      if INT_MIN <= v <= INT_MAX then Some(v) else None
  }

  function DigitChar(d: int): char
    requires 0 <= d < 10
  {
    ('0' as int + d) as char
  }

  /** The decimal digits of n, most significant first, without leading zeros. */
  function FormatNat(n: nat): (s: string)
    ensures |s| > 0 && AllDigits(s)
    decreases n
  {
    if n < 10 then [DigitChar(n)] else FormatNat(n / 10) + [DigitChar(n % 10)]
  }

  /** `Integer.toString(n)`. */
  function FormatInt(n: int32): (s: string)
    ensures s != "" && s[0] != '+'
    ensures forall i :: 0 <= i < |s| ==> IsDigit(s[i]) || s[i] == '-'
  {
    if n < 0 then "-" + FormatNat(-(n as int)) else FormatNat(n)
  }

  lemma {:induction false} DigitsValueOfFormat(n: nat)
    ensures DigitsValue(FormatNat(n)) == n
    decreases n
  {
    if n >= 10 {
      DigitsValueOfFormat(n / 10);
      var s := FormatNat(n);
      assert s[..|s| - 1] == FormatNat(n / 10);
    }
  }

  /** `Integer.valueOf` reads back what `Integer.toString` writes. */
  lemma ParseFormat(n: int32)
    ensures ParseInt(FormatInt(n)) == Some(n)
  {
    DigitsValueOfFormat(if n < 0 then -(n as int) else n);
    if n < 0 {
      assert FormatInt(n)[1..] == FormatNat(-(n as int));
    }
  }

  /** A leading zero does not change the value of a digit string. */
  lemma {:induction false} DigitsValueLeadingZero(d: string)
    requires AllDigits(d)
    ensures AllDigits("0" + d) && DigitsValue("0" + d) == DigitsValue(d)
    decreases |d|
  {
    assert AllDigits("0" + d) by {
      forall k | 0 <= k < |"0" + d| ensures IsDigit(("0" + d)[k]) {
        if k > 0 { assert ("0" + d)[k] == d[k - 1]; }
      }
    }
    if |d| > 0 {
      var init := d[..|d| - 1];
      assert AllDigits(init) by {
        forall k | 0 <= k < |init| ensures IsDigit(init[k]) { assert init[k] == d[k]; }
      }
      DigitsValueLeadingZero(init);
      assert ("0" + d)[..|"0" + d| - 1] == "0" + init;
    }
  }

  /** `Integer.valueOf` ignores leading zeros and a leading `+`: non-canonical
      text denotes the same int as its digits. */
  lemma ParseIntNonCanonical(d: string)
    requires |d| > 0 && AllDigits(d)
    ensures ParseInt("0" + d) == ParseInt(d)
    ensures ParseInt("+" + d) == ParseInt(d)
  {
    DigitsValueLeadingZero(d);
    assert ("+" + d)[1..] == d;
  }

  /** A digit string whose value is outside int range throws, with or
      without a `-`; a stray character makes any text throw. */
  lemma ParseIntRejects(n: nat)
    ensures n > INT_MAX ==> ParseInt(FormatNat(n)) == None
    ensures n > -INT_MIN ==> ParseInt("-" + FormatNat(n)) == None
    ensures ParseInt("1a") == None
  {
    DigitsValueOfFormat(n);
    assert ("-" + FormatNat(n))[1..] == FormatNat(n);
    assert !IsDigit("1a"[1]);
  }

  /** The empty string and a lone sign are not numbers. */
  lemma ParseIntRejectsEmpty()
    ensures ParseInt("") == None
    ensures ParseInt("-") == None
    ensures ParseInt("+") == None
  {
  }
}
