/** ASCII string primitives with the meaning Go's `strings` package gives them.
    Strings are `seq<char>`; only ASCII letters have a case. */
module Text {

  /** Go's `unicode.IsSpace` restricted to ASCII: space, \t, \n, \v, \f, \r. */
  const Whitespace: set<char> := {' ', '\t', '\n', '\U{0B}', '\U{0C}', '\r'}

  predicate IsUpperAscii(c: char) {
    'A' <= c <= 'Z'
  }

  function LowerChar(c: char): (d: char)
    ensures !IsUpperAscii(d)
    ensures IsUpperAscii(c) ==> d as int == c as int + 32
    ensures !IsUpperAscii(c) ==> d == c
  {
    if IsUpperAscii(c) then (c as int + 32) as char else c
  }

  /** No ASCII upper-case letter occurs in `s`. */
  predicate IsLower(s: string) {
    forall i :: 0 <= i < |s| ==> !IsUpperAscii(s[i])
  }

  /** `strings.ToLower`, ASCII only: every character is mapped on its own. */
  function ToLower(s: string): (r: string)
    ensures |r| == |s|
    ensures forall i :: 0 <= i < |s| ==> r[i] == LowerChar(s[i])
    ensures IsLower(r)
  {
    if |s| == 0 then [] else [LowerChar(s[0])] + ToLower(s[1..])
  }

  lemma LowerOfLower(s: string)
    requires IsLower(s)
    ensures ToLower(s) == s
  {
  }

  lemma ToLowerIdempotent(s: string)
    ensures ToLower(ToLower(s)) == ToLower(s)
  {
    LowerOfLower(ToLower(s));
  }

  lemma ToLowerAppend(a: string, b: string)
    ensures ToLower(a + b) == ToLower(a) + ToLower(b)
  {
  }

  // ---------------------------------------------------------------------------
  // Prefixes and substrings

  /** `strings.HasPrefix(s, p)`. */
  predicate IsPrefix(p: string, s: string) {
    |p| <= |s| && s[..|p|] == p
  }

  /** `k` is a substring of `s` (the reference meaning of `strings.Contains`). */
  ghost predicate Occurs(k: string, s: string) {
    exists i :: 0 <= i <= |s| && IsPrefix(k, s[i..])
  }

  /** `strings.Index`: the first position at which `k` starts in `s`, or -1. */
  function IndexOf(s: string, k: string): (r: int)
    ensures -1 <= r <= |s|
    ensures r == -1 <==> !Occurs(k, s)
    ensures r >= 0 ==> IsPrefix(k, s[r..])
    ensures r >= 0 ==> forall j :: 0 <= j < r ==> !IsPrefix(k, s[j..])
    decreases |s|
  {
    assert s[0..] == s;
    if IsPrefix(k, s) then 0
    else if |s| == 0 then -1
    else
      OccursStep(k, s);
      var t := IndexOf(s[1..], k);
      if t == -1 then -1
      else
        assert forall j :: 1 <= j <= |s| ==> s[j..] == s[1..][j - 1..];
        t + 1
  }

  /** `strings.Contains`. */
  function Contains(s: string, k: string): (r: bool)
    ensures r <==> Occurs(k, s)
  {
    IndexOf(s, k) >= 0
  }

  lemma OccursStep(k: string, s: string)
    requires |s| > 0
    ensures Occurs(k, s) <==> IsPrefix(k, s) || Occurs(k, s[1..])
  {
    assert s[0..] == s;
    if Occurs(k, s) && !IsPrefix(k, s) {
      var i :| 0 <= i <= |s| && IsPrefix(k, s[i..]);
      assert s[i..] == s[1..][i - 1..];
    }
    if Occurs(k, s[1..]) {
      var i :| 0 <= i <= |s[1..]| && IsPrefix(k, s[1..][i..]);
      assert s[1..][i..] == s[i + 1..];
    }
  }

  lemma PrefixOccurs(k: string, s: string)
    requires IsPrefix(k, s)
    ensures Occurs(k, s)
  {
    assert s[0..] == s;
  }

  /** The substring relation is transitive. */
  lemma {:induction false} OccursTrans(a: string, b: string, c: string)
    requires Occurs(a, b) && Occurs(b, c)
    ensures Occurs(a, c)
  {
    var i :| 0 <= i <= |b| && IsPrefix(a, b[i..]);
    var j :| 0 <= j <= |c| && IsPrefix(b, c[j..]);
    assert |a| <= |c[j + i..]|;
    forall k | 0 <= k < |a| ensures c[j + i..][k] == a[k] {
      assert a[k] == b[i + k] && b[i + k] == c[j + i + k];
    }
    assert c[j + i..][..|a|] == a;
  }

  lemma PrefixAtOccurs(k: string, s: string, i: nat)
    requires i <= |s|
    ensures IsPrefix(k, s[i..]) ==> Occurs(k, s)
  {
  }

  /** `k` is not in `a + b` when it starts at no position of `a` and is not in `b`. */
  lemma NotOccursAppend(k: string, a: string, b: string)
    requires forall j :: 0 <= j < |a| ==> !IsPrefix(k, (a + b)[j..])
    requires !Occurs(k, b)
    ensures !Occurs(k, a + b)
  {
    forall j | |a| <= j <= |a + b| ensures !IsPrefix(k, (a + b)[j..]) {
      assert (a + b)[j..] == b[j - |a|..];
      PrefixAtOccurs(k, b, j - |a|);
    }
  }

  /** The first position where `k` starts is what `IndexOf` returns. */
  lemma IndexOfAt(s: string, k: string, i: nat)
    requires i <= |s| && IsPrefix(k, s[i..])
    requires forall j :: 0 <= j < i ==> !IsPrefix(k, s[j..])
    ensures IndexOf(s, k) == i
  {
    assert Occurs(k, s);
  }

  /** A character of `k` missing from `s` rules `k` out as a substring. */
  lemma {:induction false} MissingCharNotOccurs(k: string, s: string, n: nat)
    requires n < |k|
    ensures k[n] !in s ==> !Occurs(k, s)
  {
    if Occurs(k, s) {
      var i :| 0 <= i <= |s| && IsPrefix(k, s[i..]);
      assert k[n] == s[i..][n];
    }
  }

  /** A substring found at a known position of an already lower-case text. */
  lemma OccursInLower(k: string, s: string, i: nat)
    requires IsLower(s) && i <= |s| && IsPrefix(k, s[i..])
    ensures Occurs(k, ToLower(s))
  {
    LowerOfLower(s);
  }

  lemma TooLongNotOccurs(k: string, s: string)
    requires |k| > |s|
    ensures !Occurs(k, s)
  {
  }

  lemma {:induction false} OccursInAppend(k: string, a: string, b: string, c: string)
    requires Occurs(k, b)
    ensures Occurs(k, a + b + c)
  {
    var i :| 0 <= i <= |b| && IsPrefix(k, b[i..]);
    assert (a + b + c)[|a| + i..][..|k|] == b[i..][..|k|];
    assert IsPrefix(k, (a + b + c)[|a| + i..]);
  }

  // ---------------------------------------------------------------------------
  // Trimming

  /** `strings.TrimLeft(s, cutset)`. */
  function TrimLeft(s: string, cut: set<char>): (r: string)
    ensures |r| <= |s| && r == s[|s| - |r|..]
    ensures forall i :: 0 <= i < |s| - |r| ==> s[i] in cut
    ensures |r| > 0 ==> r[0] !in cut
  {
    if |s| > 0 && s[0] in cut then TrimLeft(s[1..], cut) else s
  }

  /** `strings.TrimRight(s, cutset)`. */
  function TrimRight(s: string, cut: set<char>): (r: string)
    ensures |r| <= |s| && r == s[..|r|]
    ensures forall i :: |r| <= i < |s| ==> s[i] in cut
    ensures |r| > 0 ==> r[|r| - 1] !in cut
  {
    if |s| > 0 && s[|s| - 1] in cut then TrimRight(s[..|s| - 1], cut) else s
  }

  /** `strings.Trim(s, cutset)`: drops the cut characters at both ends. */
  function Trim(s: string, cut: set<char>): (r: string)
    ensures |r| <= |s|
    ensures |r| > 0 ==> r[0] !in cut && r[|r| - 1] !in cut
    ensures (|s| == 0 || (s[0] !in cut && s[|s| - 1] !in cut)) ==> r == s
  {
    TrimRight(TrimLeft(s, cut), cut)
  }

  /** `strings.TrimSpace`. */
  function TrimSpace(s: string): (r: string)
    ensures |r| <= |s|
    ensures |r| > 0 ==> r[0] !in Whitespace && r[|r| - 1] !in Whitespace
    ensures (|s| == 0 || (s[0] !in Whitespace && s[|s| - 1] !in Whitespace)) ==> r == s
  {
    Trim(s, Whitespace)
  }

  /** `strings.TrimPrefix`. */
  function TrimPrefix(s: string, p: string): (r: string)
    ensures IsPrefix(p, s) ==> p + r == s
    ensures !IsPrefix(p, s) ==> r == s
  {
    if IsPrefix(p, s) then s[|p|..] else s
  }

  // ---------------------------------------------------------------------------
  // Splitting and joining

  /** Joins the parts with `sep` between consecutive parts. */
  function Join(parts: seq<string>, sep: char): string
    requires |parts| >= 1
  {
    if |parts| == 1 then parts[0] else parts[0] + [sep] + Join(parts[1..], sep)
  }

  /** `strings.Split(s, string(sep))`: always at least one part, none holding `sep`. */
  function Split(s: string, sep: char): (r: seq<string>)
    ensures |r| >= 1
    ensures forall i :: 0 <= i < |r| ==> sep !in r[i]
    ensures Join(r, sep) == s
  {
    if |s| == 0 then [""]
    else
      var rest := Split(s[1..], sep);
      if s[0] == sep then [""] + rest
      else
        assert Join(rest, sep) == rest[0] + Join(rest, sep)[|rest[0]|..];
        [[s[0]] + rest[0]] + rest[1..]
  }

  /** Splitting undoes joining when no part holds the separator. */
  lemma {:induction false} SplitJoin(parts: seq<string>, sep: char)
    requires |parts| >= 1
    requires forall i :: 0 <= i < |parts| ==> sep !in parts[i]
    ensures Split(Join(parts, sep), sep) == parts
    decreases |parts|
  {
    if |parts| == 1 {
      SplitNoSep(parts[0], sep);
    } else {
      SplitJoin(parts[1..], sep);
      SplitPastPart(parts[0], Join(parts[1..], sep), sep);
      assert Join(parts, sep) == parts[0] + ([sep] + Join(parts[1..], sep));
    }
  }

  lemma {:induction false} SplitNoSep(a: string, sep: char)
    requires sep !in a
    ensures Split(a, sep) == [a]
    decreases |a|
  {
    if |a| > 0 {
      SplitNoSep(a[1..], sep);
      assert [a[0]] + a[1..] == a;
    }
  }

  lemma {:induction false} SplitPastPart(a: string, b: string, sep: char)
    requires sep !in a
    ensures Split(a + ([sep] + b), sep) == [a] + Split(b, sep)
    decreases |a|
  {
    var s := a + ([sep] + b);
    if |a| == 0 {
      assert s == [sep] + b;
      assert s[1..] == b;
    } else {
      assert s[1..] == a[1..] + ([sep] + b);
      SplitPastPart(a[1..], b, sep);
      assert [a[0]] + a[1..] == a;
    }
  }

  /** The characters of `s` that are not in `cut`, in order. */
  function RemoveChars(s: string, cut: set<char>): (r: string)
    ensures forall i :: 0 <= i < |r| ==> r[i] !in cut
  {
    if |s| == 0 then [] else (if s[0] in cut then [] else [s[0]]) + RemoveChars(s[1..], cut)
  }

  lemma {:induction false} RemoveCharsAppend(a: string, b: string, cut: set<char>)
    ensures RemoveChars(a + b, cut) == RemoveChars(a, cut) + RemoveChars(b, cut)
    decreases |a|
  {
    if |a| > 0 {
      assert (a + b)[0] == a[0];
      assert (a + b)[1..] == a[1..] + b;
      RemoveCharsAppend(a[1..], b, cut);
      var h := if a[0] in cut then [] else [a[0]];
      calc {
        RemoveChars(a + b, cut);
        h + RemoveChars(a[1..] + b, cut);
        h + (RemoveChars(a[1..], cut) + RemoveChars(b, cut));
        (h + RemoveChars(a[1..], cut)) + RemoveChars(b, cut);
        RemoveChars(a, cut) + RemoveChars(b, cut);
      }
    } else {
      assert a + b == b;
    }
  }

  lemma {:induction false} RemoveCharsNone(a: string, cut: set<char>)
    requires forall i :: 0 <= i < |a| ==> a[i] !in cut
    ensures RemoveChars(a, cut) == a
    decreases |a|
  {
    if |a| > 0 {
      RemoveCharsNone(a[1..], cut);
      assert [a[0]] + a[1..] == a;
    }
  }

  /** Length of the longest prefix of `s` free of `cut` characters. */
  function RunLength(s: string, cut: set<char>): (n: nat)
    ensures n <= |s|
    ensures forall i :: 0 <= i < n ==> s[i] !in cut
    ensures n < |s| ==> s[n] in cut
  {
    if |s| == 0 || s[0] in cut then 0 else 1 + RunLength(s[1..], cut)
  }

  function Flatten(parts: seq<string>): string {
    if |parts| == 0 then [] else parts[0] + Flatten(parts[1..])
  }

  /** `strings.FieldsFunc(s, c in cut)`: the maximal runs of non-cut characters.
      No field is empty or holds a cut character, and together they spell
      out `s` without its cut characters. */
  function FieldsFunc(s: string, cut: set<char>): (r: seq<string>)
    ensures forall i :: 0 <= i < |r| ==> |r[i]| > 0
    ensures forall i, j :: 0 <= i < |r| && 0 <= j < |r[i]| ==> r[i][j] !in cut
    ensures Flatten(r) == RemoveChars(s, cut)
    decreases |s|
  {
    if |s| == 0 then []
    else if s[0] in cut then FieldsFunc(s[1..], cut)
    else
      var n := RunLength(s, cut);
      assert s == s[..n] + s[n..];
      RemoveCharsAppend(s[..n], s[n..], cut);
      RemoveCharsNone(s[..n], cut);
      [s[..n]] + FieldsFunc(s[n..], cut)
  }

  /** `strings.Fields`: FieldsFunc on white space. */
  function Fields(s: string): (r: seq<string>)
    ensures forall i :: 0 <= i < |r| ==> |r[i]| > 0
    ensures forall i, j :: 0 <= i < |r| && 0 <= j < |r[i]| ==> r[i][j] !in Whitespace
    ensures Flatten(r) == RemoveChars(s, Whitespace)
  {
    FieldsFunc(s, Whitespace)
  }

  /** `strings.ReplaceAll(s, pat, rep)` for a non-empty `pat`: occurrences are
      replaced left to right without overlapping. */
  function ReplaceAll(s: string, pat: string, rep: string): (r: string)
    requires |pat| > 0
    ensures !Occurs(pat, s) ==> r == s
    ensures |rep| <= |pat| ==> |r| <= |s|
    decreases |s|
  {
    if IsPrefix(pat, s) then
      PrefixOccurs(pat, s);
      rep + ReplaceAll(s[|pat|..], pat, rep)
    else if |s| == 0 then []
    else
      OccursStep(pat, s);
      [s[0]] + ReplaceAll(s[1..], pat, rep)
  }
}
