/** Flounder's Version: a dotted version string read into three Java ints,
    and the four comparisons of the stored triple against a provided one. */
module Versions {
  import opened Wrappers
  import opened JavaStrings

  /** A constructed Version: the text it was made from and its three parts.
      getMajor, getMinor and getRevision are the three fields. */
  datatype Version = Version(text: string, major: int32, minor: int32, revision: int32)

  /** The constructor's RuntimeException ("Invalid Flounder Version"). */
  datatype InvalidVersion = InvalidVersion(text: string)

  /** The value of part i of the split text, 0 when there are not that many
      parts, None when Integer.valueOf throws on it. */
  function Part(parts: seq<string>, i: nat): (r: Option<int32>)
    ensures i >= |parts| ==> r == Some(0)
    ensures i < |parts| ==> r == ParseInt(parts[i])
  {
    if |parts| <= i then Some(0) else ParseInt(parts[i])
  }

  /** The constructor's parse: split on `.`, the first three parts become
      major, minor and revision, later parts are ignored. */
  function ParseVersion(text: string): (r: Result<Version, InvalidVersion>)
    ensures r.Ok? ==> r.value.text == text
    ensures r.Ok? <==> (Part(Split(text, '.'), 0).Some? && Part(Split(text, '.'), 1).Some?
                        && Part(Split(text, '.'), 2).Some?)
    ensures r.Ok? ==> (Part(Split(text, '.'), 0) == Some(r.value.major)
                       && Part(Split(text, '.'), 1) == Some(r.value.minor)
                       && Part(Split(text, '.'), 2) == Some(r.value.revision))
    ensures r.Err? ==> r.error == InvalidVersion(text)
  {
    var parts := Split(text, '.');
    var major, minor, revision := Part(parts, 0), Part(parts, 1), Part(parts, 2);
    if major.Some? && minor.Some? && revision.Some? then
      Ok(Version(text, major.value, minor.value, revision.value))
    else
      Err(InvalidVersion(text))
  }

  // ---------------------------------------------------------------------
  // The comparisons, as written
  // ---------------------------------------------------------------------

  /** isHigherEqual on Java ints, whose values are plain integers here. */
  function HigherEqual(v: Version, major: int, minor: int, revision: int): bool {
    if v.major != major then v.major > major
    else if v.minor != minor then v.minor > minor
    else v.revision >= revision
  }

  function LowerEqual(v: Version, major: int, minor: int, revision: int): bool {
    if v.major != major then v.major < major
    else if v.minor != minor then v.minor < minor
    else v.revision <= revision
  }

  function IsHigherEqual(v: Version, major: int32, minor: int32, revision: int32): bool {
    HigherEqual(v, major, minor, revision)
  }

  function IsLowerEqual(v: Version, major: int32, minor: int32, revision: int32): bool {
    LowerEqual(v, major, minor, revision)
  }

  /** Java's int addition: the exact sum taken modulo 2^32 into int range. */
  function Wrap(x: int): (r: int32)
    ensures INT_MIN <= x <= INT_MAX ==> r == x
    ensures (r - x) % 0x1_0000_0000 == 0
  {
    (x - INT_MIN) % 0x1_0000_0000 + INT_MIN
  }

  /** isHigher as written: `isHigherEqual(major, minor, revision + 1)` with
      the `+ 1` in int arithmetic. */
  function IsHigherAsWritten(v: Version, major: int32, minor: int32, revision: int32): bool {
    IsHigherEqual(v, major, minor, Wrap(revision + 1))
  }

  /** isLower as written: `isLowerEqual(major, minor, revision - 1)`. */
  function IsLowerAsWritten(v: Version, major: int32, minor: int32, revision: int32): bool {
    IsLowerEqual(v, major, minor, Wrap(revision - 1))
  }

  /** isHigher with the increment taken on unbounded integers: the strict
      counterpart of isHigherEqual as the code computes it, true when the
      stored version is strictly above the provided one. The doc comments of
      all four comparisons describe the provided version against the stored
      one, the opposite direction; the model follows the code. */
  function IsHigher(v: Version, major: int32, minor: int32, revision: int32): bool {
    HigherEqual(v, major, minor, revision as int + 1)
  }

  /** isLower with the decrement taken on unbounded integers: true when the
      stored version is strictly below the provided one. */
  function IsLower(v: Version, major: int32, minor: int32, revision: int32): bool {
    LowerEqual(v, major, minor, revision as int - 1)
  }

  // ---------------------------------------------------------------------
  // Reference order: lexicographic comparison of integer sequences
  // ---------------------------------------------------------------------

  /** x comes no later than y in dictionary order (equal lengths). */
  predicate LexLe(x: seq<int>, y: seq<int>)
    requires |x| == |y|
    decreases |x|
  {
    |x| == 0 || x[0] < y[0] || (x[0] == y[0] && LexLe(x[1..], y[1..]))
  }

  predicate LexLt(x: seq<int>, y: seq<int>)
    requires |x| == |y|
  {
    LexLe(x, y) && x != y
  }

  function Triple(v: Version): seq<int> {
    [v.major, v.minor, v.revision]
  }

  lemma {:induction false} LexTotal(x: seq<int>, y: seq<int>)
    requires |x| == |y|
    ensures LexLe(x, y) || LexLe(y, x)
    decreases |x|
  {
    if |x| > 0 && x[0] == y[0] {
      LexTotal(x[1..], y[1..]);
    }
  }

  lemma {:induction false} LexAntisymmetric(x: seq<int>, y: seq<int>)
    requires |x| == |y|
    requires LexLe(x, y) && LexLe(y, x)
    ensures x == y
    decreases |x|
  {
    if |x| > 0 {
      LexAntisymmetric(x[1..], y[1..]);
      assert x == [x[0]] + x[1..] && y == [y[0]] + y[1..];
    }
  }

  lemma {:induction false} LexTransitive(x: seq<int>, y: seq<int>, z: seq<int>)
    requires |x| == |y| == |z|
    requires LexLe(x, y) && LexLe(y, z)
    ensures LexLe(x, z)
    decreases |x|
  {
    if |x| > 0 && x[0] == y[0] == z[0] {
      LexTransitive(x[1..], y[1..], z[1..]);
    }
  }

  // ---------------------------------------------------------------------
  // The comparisons against the reference order
  // ---------------------------------------------------------------------

  lemma LexLeCons(x: seq<int>, y: seq<int>)
    requires |x| == |y| > 0
    ensures LexLe(x, y) <==> x[0] < y[0] || (x[0] == y[0] && LexLe(x[1..], y[1..]))
  {
  }

  lemma ThreeLe(a: seq<int>, b: seq<int>)
    requires |a| == |b| == 3
    ensures LexLe(a, b) <==>
      (if a[0] != b[0] then a[0] < b[0] else if a[1] != b[1] then a[1] < b[1] else a[2] <= b[2])
  {
    LexLeCons(a, b);
    LexLeCons(a[1..], b[1..]);
    LexLeCons(a[2..], b[2..]);
    assert a[1..][1..] == a[2..] && b[1..][1..] == b[2..];
    assert a[2..][1..] == [] && b[2..][1..] == [];
  }

  /** isHigherEqual holds exactly when the provided triple is at or below the
      stored one. */
  lemma HigherEqualIsLex(v: Version, major: int32, minor: int32, revision: int32)
    ensures IsHigherEqual(v, major, minor, revision) <==> LexLe([major, minor, revision], Triple(v))
  {
    ThreeLe([major, minor, revision], Triple(v));
  }

  /** isLowerEqual holds exactly when the stored triple is at or below the
      provided one. */
  lemma LowerEqualIsLex(v: Version, major: int32, minor: int32, revision: int32)
    ensures IsLowerEqual(v, major, minor, revision) <==> LexLe(Triple(v), [major, minor, revision])
  {
    ThreeLe(Triple(v), [major, minor, revision]);
  }

  /** isHigher holds exactly when the provided triple is strictly below. */
  lemma HigherIsLex(v: Version, major: int32, minor: int32, revision: int32)
    ensures IsHigher(v, major, minor, revision) <==> LexLt([major, minor, revision], Triple(v))
  {
    ThreeLe([major, minor, revision], Triple(v));
  }

  /** isLower holds exactly when the stored triple is strictly below. */
  lemma LowerIsLex(v: Version, major: int32, minor: int32, revision: int32)
    ensures IsLower(v, major, minor, revision) <==> LexLt(Triple(v), [major, minor, revision])
  {
    ThreeLe(Triple(v), [major, minor, revision]);
  }

  /** Exactly one of: higher, lower, or the same three numbers. */
  lemma Trichotomy(v: Version, major: int32, minor: int32, revision: int32)
    ensures var same := v.major == major && v.minor == minor && v.revision == revision;
            (IsHigher(v, major, minor, revision) || IsLower(v, major, minor, revision) || same)
            && !(IsHigher(v, major, minor, revision) && IsLower(v, major, minor, revision))
            && !(same && (IsHigher(v, major, minor, revision) || IsLower(v, major, minor, revision)))
  {
  }

  /** The two non-strict comparisons are the negations of the strict ones. */
  lemma HigherEqualIsNotLower(v: Version, major: int32, minor: int32, revision: int32)
    ensures IsHigherEqual(v, major, minor, revision) <==> !IsLower(v, major, minor, revision)
    ensures IsLowerEqual(v, major, minor, revision) <==> !IsHigher(v, major, minor, revision)
  {
  }

  /** Away from the int bounds the methods as written agree with the
      intended strict comparisons. */
  lemma AsWrittenAwayFromBounds(v: Version, major: int32, minor: int32, revision: int32)
    ensures revision < INT_MAX ==> IsHigherAsWritten(v, major, minor, revision) == IsHigher(v, major, minor, revision)
    ensures revision > INT_MIN ==> IsLowerAsWritten(v, major, minor, revision) == IsLower(v, major, minor, revision)
  {
  }

  /** At the top of the int range `revision + 1` wraps to the smallest int,
      so version 0.0.0 claims to be higher than 0.0.2147483647. */
  lemma HigherAsWrittenOverflows()
    ensures var v := Version("0.0.0", 0, 0, 0);
            IsHigherAsWritten(v, 0, 0, INT_MAX) && !IsHigher(v, 0, 0, INT_MAX)
  {
  }

  /** At the bottom `revision - 1` wraps to the largest int, so version
      0.0.0 claims to be lower than 0.0.-2147483648. */
  lemma LowerAsWrittenOverflows()
    ensures var v := Version("0.0.0", 0, 0, 0);
            IsLowerAsWritten(v, 0, 0, INT_MIN) && !IsLower(v, 0, 0, INT_MIN)
  {
  }

  // ---------------------------------------------------------------------
  // Parsing
  // ---------------------------------------------------------------------

  /** A version string written from numbers: the parts joined by dots. */
  function FormatParts(ns: seq<int32>): (s: string)
    ensures |ns| >= 1 ==> s != ""
  {
    Join(seq(|ns|, i requires 0 <= i < |ns| => FormatInt(ns[i])), '.')
  }

  lemma NoDotInNumber(n: int32)
    ensures '.' !in FormatInt(n)
  {
    var s := FormatInt(n);
    forall j | 0 <= j < |s|
      ensures s[j] != '.'
    {
      assert IsDigit(s[j]) || s[j] == '-';
    }
  }

  /** The written parts split back into the numbers' texts. */
  lemma SplitFormatted(ns: seq<int32>)
    requires |ns| >= 1
    ensures Split(FormatParts(ns), '.') == seq(|ns|, i requires 0 <= i < |ns| => FormatInt(ns[i]))
  {
    var ts := seq(|ns|, i requires 0 <= i < |ns| => FormatInt(ns[i]));
    forall i | 0 <= i < |ts|
      ensures '.' !in ts[i]
    {
      NoDotInNumber(ns[i]);
    }
    SplitJoin(ts, '.');
  }

  /** Parsing a dotted string of one or more numbers takes the first three
      of them in order, a missing one counting as 0. */
  lemma ParseFormatted(ns: seq<int32>)
    requires |ns| >= 1
    ensures ParseVersion(FormatParts(ns)).Ok?
    ensures var v := ParseVersion(FormatParts(ns)).value;
            v.major == ns[0]
            && v.minor == (if |ns| > 1 then ns[1] else 0)
            && v.revision == (if |ns| > 2 then ns[2] else 0)
  {
    var ts := seq(|ns|, i requires 0 <= i < |ns| => FormatInt(ns[i]));
    SplitFormatted(ns);
    forall i | 0 <= i < 3
      ensures Part(ts, i) == Some(if i < |ns| then ns[i] else 0)
    {
      if i < |ns| {
        ParseFormat(ns[i]);
      }
    }
    assert Part(ts, 0) == Some(ns[0]);
    assert Part(ts, 1) == Some(if |ns| > 1 then ns[1] else 0);
    assert Part(ts, 2) == Some(if |ns| > 2 then ns[2] else 0);
  }

  /** The text `1.2.3` gives version 1, 2, 3. */
  lemma ParseThreeParts(a: int32, b: int32, c: int32)
    ensures ParseVersion(FormatParts([a, b, c])) == Ok(Version(FormatParts([a, b, c]), a, b, c))
  {
    ParseFormatted([a, b, c]);
  }

  /** Nothing but dots splits into no parts at all: every part is 0. The
      empty string is one empty part, which is not a number. */
  lemma ParseEdgeCases()
    ensures ParseVersion(".") == Ok(Version(".", 0, 0, 0))
    ensures ParseVersion("") == Err(InvalidVersion(""))
  {
    assert Fields(".", '.') == ["", ""] by {
      assert IndexOf(".", '.') == 0;
      assert "."[1..] == "";
    }
    assert DropTrailingEmpty(["", ""]) == [] by {
      assert ["", ""][..1] == [""];
      assert [""][..0] == [];
    }
    ParseIntRejectsEmpty();
  }
}
