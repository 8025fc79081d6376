/** Python string operations the application relies on, with the facts about them
    the rest of the model needs. Strings are sequences of Unicode scalar values,
    as Python's `str` is. */
module Text {
  import opened Values

  /** Python's `str.isspace()` for one character (also what `\s` matches). */
  predicate IsSpace(c: char) {
    var n := c as int;
    (9 <= n <= 13) || n == 0x20 || (0x1c <= n <= 0x1f) || n == 0x85 || n == 0xa0 ||
    n == 0x1680 || (0x2000 <= n <= 0x200a) || n == 0x2028 || n == 0x2029 ||
    n == 0x202f || n == 0x205f || n == 0x3000
  }

  predicate StartsWith(s: string, prefix: string) {
    |prefix| <= |s| && s[..|prefix|] == prefix
  }

  predicate EndsWith(s: string, suffix: string) {
    |suffix| <= |s| && s[|s| - |suffix|..] == suffix
  }

  /** `pat` occurs in `s` at position `k`. */
  predicate OccursAt(pat: string, s: string, k: int) {
    0 <= k <= |s| - |pat| && s[k..k + |pat|] == pat
  }

  /** `pat` occurs in `s` as a substring. */
  predicate Occurs(pat: string, s: string) {
    exists k | 0 <= k <= |s| - |pat| :: OccursAt(pat, s, k)
  }

  /** An occurrence in a prefix is an occurrence in the whole. */
  lemma OccursInPrefix(pat: string, s: string, n: nat, k: nat)
    requires n <= |s| && OccursAt(pat, s[..n], k)
    ensures OccursAt(pat, s, k) && k + |pat| <= n
  {
    assert s[..n][k..k + |pat|] == s[k..k + |pat|];
  }

  // ---------------------------------------------------------------- stripping

  /** `s.lstrip()`: drops exactly the leading whitespace. */
  function LStrip(s: string): (r: string)
    ensures |r| <= |s| && r == s[|s| - |r|..]
    ensures forall k :: 0 <= k < |s| - |r| ==> IsSpace(s[k])
    ensures r != [] ==> !IsSpace(r[0])
    decreases |s|
  {
    if s != [] && IsSpace(s[0]) then LStrip(s[1..]) else s
  }

  /** `s.rstrip()`: drops exactly the trailing whitespace. */
  function RStrip(s: string): (r: string)
    ensures |r| <= |s| && r == s[..|r|]
    ensures forall k :: |r| <= k < |s| ==> IsSpace(s[k])
    ensures r != [] ==> !IsSpace(r[|r| - 1])
    decreases |s|
  {
    if s != [] && IsSpace(s[|s| - 1]) then RStrip(s[..|s| - 1]) else s
  }

  /** `s.strip()`. */
  function Strip(s: string): (r: string)
    ensures |r| <= |s|
    ensures r != [] ==> !IsSpace(r[0]) && !IsSpace(r[|r| - 1])
    ensures r == [] <==> forall k :: 0 <= k < |s| ==> IsSpace(s[k])
  {
    var t := LStrip(s);
    var r := RStrip(t);
    assert r != [] ==> r[0] == t[0];
    r
  }

  /** Leading whitespace makes no difference to `strip()`. */
  lemma StripDropSpaces(s: string, k: nat)
    requires k <= |s|
    requires forall j :: 0 <= j < k ==> IsSpace(s[j])
    ensures Strip(s[k..]) == Strip(s)
  {
    LStripDropSpaces(s, k);
  }

  lemma {:induction false} LStripDropSpaces(s: string, k: nat)
    requires k <= |s|
    requires forall j :: 0 <= j < k ==> IsSpace(s[j])
    ensures LStrip(s[k..]) == LStrip(s)
    decreases k
  {
    if k > 0 {
      assert s[1..][k - 1..] == s[k..];
      assert LStrip(s) == LStrip(s[1..]);
      LStripDropSpaces(s[1..], k - 1);
    }
  }

  /** A string ending in a non-space character strips to a non-empty suffix of itself. */
  lemma StripEndingInNonSpace(s: string) returns (a: nat)
    requires s != [] && !IsSpace(s[|s| - 1])
    ensures a < |s| && Strip(s) == s[a..]
  {
    var l := LStrip(s);
    a := |s| - |l|;
    assert l[|l| - 1] == s[|s| - 1];
  }

  /** Stripping a character adds no character. */
  lemma StripCharKeepsAbsent(s: string, c: char, d: char)
    requires d !in s
    ensures d !in StripChar(s, c)
  {
    var t := LStripChar(s, c);
    var r := RStripChar(t, c);
    var a := |s| - |t|;
    forall j | 0 <= j < |r| ensures r[j] != d {
      assert r[j] == t[j] == s[a + j];
    }
  }

  /** Stripping adds no character. */
  lemma StripKeepsAbsent(s: string, c: char)
    requires c !in s
    ensures c !in Strip(s)
  {
    var t := LStrip(s);
    var r := RStrip(t);
    var a := |s| - |t|;
    forall j | 0 <= j < |r| ensures r[j] != c {
      assert r[j] == t[j] == s[a + j];
    }
  }

  lemma StripUnchanged(s: string)
    requires s != [] ==> !IsSpace(s[0]) && !IsSpace(s[|s| - 1])
    ensures Strip(s) == s
  {
  }

  /** `s.lstrip(c)` for a single character `c`. */
  function LStripChar(s: string, c: char): (r: string)
    ensures |r| <= |s| && r == s[|s| - |r|..]
    ensures forall k :: 0 <= k < |s| - |r| ==> s[k] == c
    ensures r != [] ==> r[0] != c
    decreases |s|
  {
    if s != [] && s[0] == c then LStripChar(s[1..], c) else s
  }

  /** `s.rstrip(c)` for a single character `c`. */
  function RStripChar(s: string, c: char): (r: string)
    ensures |r| <= |s| && r == s[..|r|]
    ensures forall k :: |r| <= k < |s| ==> s[k] == c
    ensures r != [] ==> r[|r| - 1] != c
    decreases |s|
  {
    if s != [] && s[|s| - 1] == c then RStripChar(s[..|s| - 1], c) else s
  }

  /** `s.strip(c)` for a single character `c`. */
  function StripChar(s: string, c: char): (r: string)
    ensures |r| <= |s|
    ensures r != [] ==> r[0] != c && r[|r| - 1] != c
  {
    var t := LStripChar(s, c);
    var r := RStripChar(t, c);
    assert r != [] ==> r[0] == t[0];
    r
  }

  /** Text that neither starts nor ends with `c` is left as it is. */
  lemma StripCharUnchanged(s: string, c: char)
    requires s != [] ==> s[0] != c && s[|s| - 1] != c
    ensures StripChar(s, c) == s
  {
  }

  // ----------------------------------------------------------- join and split

  /** `sep.join(xs)`. */
  function Join(xs: seq<string>, sep: string): string
    decreases |xs|
  {
    if |xs| == 0 then "" else if |xs| == 1 then xs[0] else xs[0] + sep + Join(xs[1..], sep)
  }

  lemma {:induction false} JoinAppend(xs: seq<string>, y: string, sep: string)
    ensures Join(xs + [y], sep) == if xs == [] then y else Join(xs, sep) + sep + y
    decreases |xs|
  {
    if |xs| >= 2 {
      assert (xs + [y])[1..] == xs[1..] + [y];
      JoinAppend(xs[1..], y, sep);
    } else if |xs| == 1 {
      assert (xs + [y])[1..] == [y];
    }
  }

  /** A joined string starts with its first piece. */
  lemma JoinStartsWithFirst(xs: seq<string>, sep: string)
    requires |xs| >= 1
    ensures StartsWith(Join(xs, sep), xs[0])
  {
    if |xs| > 1 {
      assert Join(xs, sep) == xs[0] + (sep + Join(xs[1..], sep));
    }
  }

  /** `s.split(c)` for a one-character separator: keeps empty pieces. */
  function Split(s: string, c: char): (r: seq<string>)
    ensures |r| >= 1
    decreases |s|
  {
    if s == [] then [""]
    else
      var rest := Split(s[1..], c);
      if s[0] == c then [""] + rest else [[s[0]] + rest[0]] + rest[1..]
  }

  /** A leading separator splits off an empty first piece. */
  lemma SplitAtSeparator(s: string, c: char)
    requires s != [] && s[0] == c
    ensures Split(s, c)[0] == "" && Split(s, c)[1..] == Split(s[1..], c)
  {
    assert Split(s, c) == [""] + Split(s[1..], c);
  }

  /** Any other leading character joins the first piece. */
  lemma SplitAtOther(s: string, c: char)
    requires s != [] && s[0] != c
    ensures Split(s, c)[0] == [s[0]] + Split(s[1..], c)[0]
    ensures Split(s, c)[1..] == Split(s[1..], c)[1..]
  {
  }

  /** No piece of a split holds the separator. */
  lemma {:induction false} SplitPiecesOmitSeparator(s: string, c: char)
    ensures forall k :: 0 <= k < |Split(s, c)| ==> c !in Split(s, c)[k]
    decreases |s|
  {
    if s != [] {
      SplitPiecesOmitSeparator(s[1..], c);
      var rest := Split(s[1..], c);
      if s[0] != c {
        assert c !in [s[0]] + rest[0];
      }
    }
  }

  /** Joining the pieces of a split with the separator gives the text back. */
  lemma {:induction false} SplitThenJoin(s: string, c: char)
    ensures Join(Split(s, c), [c]) == s
    decreases |s|
  {
    if s != [] {
      var rest := Split(s[1..], c);
      SplitThenJoin(s[1..], c);
      if s[0] == c {
        assert Split(s, c) == [""] + rest;
        assert ([""] + rest)[1..] == rest;
      } else {
        var r := [[s[0]] + rest[0]] + rest[1..];
        assert Split(s, c) == r;
        if |rest| >= 2 {
          assert r[1..] == rest[1..];
          assert Join(rest, [c]) == rest[0] + [c] + Join(rest[1..], [c]);
        }
      }
    }
  }

  /** A piece without the separator, followed by the separator, splits off whole. */
  lemma {:induction false} SplitPiece(a: string, c: char, rest: string)
    requires c !in a
    ensures Split(a + [c] + rest, c) == [a] + Split(rest, c)
    decreases |a|
  {
    if a == [] {
      assert a + [c] + rest == [c] + rest;
      assert ([c] + rest)[1..] == rest;
    } else {
      var s := a + [c] + rest;
      assert s[0] == a[0] && s[1..] == a[1..] + [c] + rest;
      SplitPiece(a[1..], c, rest);
      assert [a[0]] + a[1..] == a;
    }
  }

  lemma {:induction false} SplitNoSeparator(a: string, c: char)
    requires c !in a
    ensures Split(a, c) == [a]
    decreases |a|
  {
    if a != [] {
      SplitNoSeparator(a[1..], c);
      assert [a[0]] + a[1..] == a;
    }
  }

  /** Splitting pieces that were joined with the separator gives the pieces back. */
  lemma {:induction false} JoinThenSplit(xs: seq<string>, c: char)
    requires |xs| >= 1
    requires forall k :: 0 <= k < |xs| ==> c !in xs[k]
    ensures Split(Join(xs, [c]), c) == xs
    decreases |xs|
  {
    if |xs| == 1 {
      SplitNoSeparator(xs[0], c);
    } else {
      JoinThenSplit(xs[1..], c);
      SplitPiece(xs[0], c, Join(xs[1..], [c]));
      assert [xs[0]] + xs[1..] == xs;
    }
  }

  /** The longest prefix without whitespace. */
  function TakeWord(s: string): (w: string)
    ensures |w| <= |s| && w == s[..|w|]
    ensures forall k :: 0 <= k < |w| ==> !IsSpace(w[k])
    ensures |w| < |s| ==> IsSpace(s[|w|])
    ensures s != [] && !IsSpace(s[0]) ==> w != []
    decreases |s|
  {
    if s == [] || IsSpace(s[0]) then [] else [s[0]] + TakeWord(s[1..])
  }

  /** A non-empty run of non-whitespace characters. */
  predicate IsWord(w: string) {
    w != [] && forall j :: 0 <= j < |w| ==> !IsSpace(w[j])
  }

  /** `s.split()` with no separator: the maximal runs of non-whitespace. */
  function Words(s: string): (r: seq<string>)
    ensures forall k :: 0 <= k < |r| ==> IsWord(r[k])
    decreases |s|
  {
    var t := LStrip(s);
    if t == [] then []
    else
      var w := TakeWord(t);
      assert IsWord(w);
      var rest := Words(t[|w|..]);
      assert forall k :: 0 < k <= |rest| ==> ([w] + rest)[k] == rest[k - 1];
      [w] + rest
  }

  // ------------------------------------------------------------- replacement

  /** `s.replace(pat, "")`: removes the occurrences of `pat` found scanning left to
      right, without overlap. An empty `pat` leaves `s` as it is. */
  function RemoveAll(s: string, pat: string): (r: string)
    ensures |r| <= |s|
    decreases |s|
  {
    if pat == [] || |s| < |pat| then s
    else if s[..|pat|] == pat then RemoveAll(s[|pat|..], pat)
    else [s[0]] + RemoveAll(s[1..], pat)
  }

  /** Removing a pattern that does not occur changes nothing. */
  lemma {:induction false} RemoveAbsent(s: string, pat: string)
    requires !Occurs(pat, s)
    ensures RemoveAll(s, pat) == s
    decreases |s|
  {
    if pat != [] && |s| >= |pat| {
      assert s[0..|pat|] == s[..|pat|];
      assert !OccursAt(pat, s, 0);
      forall k | OccursAt(pat, s[1..], k) ensures OccursAt(pat, s, k + 1) {
        assert s[k + 1..k + 1 + |pat|] == s[1..][k..k + |pat|];
      }
      RemoveAbsent(s[1..], pat);
      assert [s[0]] + s[1..] == s;
    }
  }

  /** An occurrence after the first character is an occurrence in the whole. */
  lemma OccursInTail(pat: string, s: string, k: int)
    requires s != []
    ensures OccursAt(pat, s[1..], k) ==> OccursAt(pat, s, k + 1)
  {
    if OccursAt(pat, s[1..], k) {
      assert s[k + 1..k + 1 + |pat|] == s[1..][k..k + |pat|];
    }
  }

  /** A stretch `x` in which no occurrence of `pat` starts is copied through
      unchanged; removal then carries on with what follows. */
  lemma {:induction false} RemoveAllSkips(x: string, rest: string, pat: string)
    requires pat != []
    requires forall k :: 0 <= k < |x| ==> !OccursAt(pat, x + rest, k)
    ensures RemoveAll(x + rest, pat) == x + RemoveAll(rest, pat)
    decreases |x|
  {
    if x != [] {
      var s := x + rest;
      assert !OccursAt(pat, s, 0);
      if |s| >= |pat| {
        assert s[0..|pat|] == s[..|pat|];
        assert s[1..] == x[1..] + rest;
        forall k | 0 <= k < |x[1..]| ensures !OccursAt(pat, x[1..] + rest, k) {
          OccursInTail(pat, s, k);
        }
        assert s[..|pat|] != pat;
        assert RemoveAll(s, pat) == [s[0]] + RemoveAll(s[1..], pat);
        RemoveAllSkips(x[1..], rest, pat);
        assert [x[0]] + (x[1..] + RemoveAll(rest, pat)) == x + RemoveAll(rest, pat);
      } else {
        assert |rest| < |pat|;
      }
    } else {
      assert x + rest == rest;
    }
  }

  /** `s.replace(a, b)` for single characters. */
  function ReplaceChar(s: string, a: char, b: char): (r: string)
    ensures |r| == |s|
    ensures forall k :: 0 <= k < |s| ==> r[k] == if s[k] == a then b else s[k]
  {
    seq(|s|, k requires 0 <= k < |s| => if s[k] == a then b else s[k])
  }

  // ------------------------------------------------------------------ casing

  function UpperChar(c: char): char {
    if 'a' <= c <= 'z' then (c as int - 32) as char else c
  }

  function LowerChar(c: char): char {
    if 'A' <= c <= 'Z' then (c as int + 32) as char else c
  }

  /** `s.upper()`, for the ASCII letters. */
  function Upper(s: string): (r: string)
    ensures |r| == |s| && forall k :: 0 <= k < |s| ==> r[k] == UpperChar(s[k])
  {
    seq(|s|, k requires 0 <= k < |s| => UpperChar(s[k]))
  }

  /** `s.lower()`, for the ASCII letters. */
  function Lower(s: string): (r: string)
    ensures |r| == |s| && forall k :: 0 <= k < |s| ==> r[k] == LowerChar(s[k])
  {
    seq(|s|, k requires 0 <= k < |s| => LowerChar(s[k]))
  }

  /** Lower-casing forgets a prior upper-casing. */
  lemma LowerOfUpper(s: string)
    ensures Lower(Upper(s)) == Lower(s)
  {
  }

  lemma UpperIdempotent(s: string)
    ensures Upper(Upper(s)) == Upper(s)
  {
  }

  // ------------------------------------------------------------- formatting

  function DigitChar(d: nat): char
    requires d < 10
  {
    "0123456789"[d]
  }

  /** `str(n)` for a natural number. */
  function NatToString(n: nat): (r: string)
    ensures |r| >= 1
    ensures forall k :: 0 <= k < |r| ==> '0' <= r[k] <= '9'
    decreases n
  {
    if n < 10 then [DigitChar(n)] else NatToString(n / 10) + [DigitChar(n % 10)]
  }

  /** `str(i)` for an integer. */
  function IntToString(i: int): string {
    if i < 0 then "-" + NatToString(-i) else NatToString(i)
  }

  /** `str(v)`. For a list this is `repr`, with each string item in single quotes
      (the escaping `repr` applies to quotes and control characters is not modelled). */
  function PyStr(v: Value): string
    decreases v
  {
    match v
    case VNone => "None"
    case VBool(b) => if b then "True" else "False"
    case VInt(i) => IntToString(i)
    case VStr(s) => s
    case VList(xs) => "[" + ReprItems(xs) + "]"
  }

  function ReprItems(xs: seq<Value>): string
    decreases xs
  {
    if xs == [] then ""
    else
      var first := if xs[0].VStr? then "'" + xs[0].s + "'" else PyStr(xs[0]);
      if |xs| == 1 then first else first + ", " + ReprItems(xs[1..])
  }
}
