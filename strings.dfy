/**
 * The JavaScript string operations the front end relies on, stated over `seq<char>`:
 * `startsWith`, `includes`, `indexOf`, `replace` with a global literal pattern,
 * `split(" ")`, `join`, `trim` and number-to-string conversion.
 */
module Strings {

  import opened Wrappers

  /** `p` is a prefix of `s` (`s.startsWith(p)`). */
  predicate IsPrefix(p: string, s: string) {
    |p| <= |s| && s[..|p|] == p
  }

  /** `p` occurs somewhere in `s` (`s.includes(p)`). */
  predicate Occurs(s: string, p: string)
    decreases |s|
  {
    IsPrefix(p, s) || (|s| > 0 && Occurs(s[1..], p))
  }

  /** Every character of a pattern that occurs in `s` is a character of `s`. */
  lemma {:induction false} OccursHasChar(s: string, p: string, k: nat)
    requires Occurs(s, p) && k < |p|
    ensures p[k] in s
  {
    if IsPrefix(p, s) {
      assert s[k] == p[k];
    } else {
      OccursHasChar(s[1..], p, k);
      assert s == [s[0]] + s[1..];
    }
  }

  /** What occurs in a prefix of `s` occurs in `s`. */
  lemma {:induction false} OccursInPrefix(p: string, s: string, q: string)
    requires IsPrefix(p, s) && Occurs(p, q)
    ensures Occurs(s, q)
    decreases |p|
  {
    if !IsPrefix(q, p) {
      assert p[1..] == s[1..][..|p| - 1];
      OccursInPrefix(p[1..], s[1..], q);
    }
  }

  /** Occurrence is transitive: a pattern of a pattern of `s` occurs in `s`. */
  lemma {:induction false} OccursTransitive(s: string, p: string, q: string)
    requires Occurs(s, p) && Occurs(p, q)
    ensures Occurs(s, q)
    decreases |s|
  {
    if IsPrefix(p, s) {
      OccursInPrefix(p, s, q);
    } else {
      OccursTransitive(s[1..], p, q);
    }
  }

  /** An occurrence in `s` is an occurrence in `a + s`. */
  lemma {:induction false} OccursAfter(a: string, s: string, q: string)
    requires Occurs(s, q)
    ensures Occurs(a + s, q)
    decreases |a|
  {
    if a == [] {
      assert a + s == s;
    } else {
      assert (a + s)[1..] == a[1..] + s;
      OccursAfter(a[1..], s, q);
    }
  }

  /** A match of `p` starting at any position `i` of `s` is an occurrence. */
  lemma {:induction false} OccursAt(s: string, p: string, i: nat)
    requires i + |p| <= |s| && s[i..i + |p|] == p
    ensures Occurs(s, p)
    decreases i
  {
    if i > 0 {
      assert s[1..][i - 1..i - 1 + |p|] == s[i..i + |p|];
      OccursAt(s[1..], p, i - 1);
    }
  }

  /** An occurrence in `s` is an occurrence in `s + b`. */
  lemma {:induction false} OccursBefore(s: string, b: string, q: string)
    requires Occurs(s, q)
    ensures Occurs(s + b, q)
    decreases |s|
  {
    if IsPrefix(q, s) {
      assert (s + b)[..|q|] == s[..|q|];
    } else {
      assert (s + b)[1..] == s[1..] + b;
      OccursBefore(s[1..], b, q);
    }
  }

  /** `s.replace(/pat/g, rep)` for a pattern that matches one literal string: leftmost, non-overlapping. */
  function ReplaceAll(s: string, pat: string, rep: string): (r: string)
    requires |pat| > 0
    decreases |s|
  {
    if IsPrefix(pat, s) then rep + ReplaceAll(s[|pat|..], pat, rep)
    else if s == [] then []
    else [s[0]] + ReplaceAll(s[1..], pat, rep)
  }

  /** Text that does not contain the pattern is left unchanged. */
  lemma {:induction false} ReplaceAllAbsent(s: string, pat: string, rep: string)
    requires |pat| > 0 && !Occurs(s, pat)
    ensures ReplaceAll(s, pat, rep) == s
    decreases |s|
  {
    if s != [] {
      ReplaceAllAbsent(s[1..], pat, rep);
    }
  }

  /** Replacing a pattern by itself changes nothing. */
  lemma {:induction false} ReplaceAllSelf(s: string, pat: string)
    requires |pat| > 0
    ensures ReplaceAll(s, pat, pat) == s
    decreases |s|
  {
    if IsPrefix(pat, s) {
      ReplaceAllSelf(s[|pat|..], pat);
      assert s == s[..|pat|] + s[|pat|..];
    } else if s != [] {
      ReplaceAllSelf(s[1..], pat);
      assert s == [s[0]] + s[1..];
    }
  }

  /** The first index at which `p` occurs in `s` (`s.indexOf(p)`, with `None` for -1). */
  function Find(s: string, p: string): (r: Option<nat>)
    ensures r.Some? ==> r.value + |p| <= |s| && IsPrefix(p, s[r.value..])
    ensures r.Some? ==> forall i | 0 <= i < r.value :: !IsPrefix(p, s[i..])
    ensures r.None? <==> !Occurs(s, p)
    decreases |s|
  {
    if IsPrefix(p, s) then Some(0)
    else if s == [] then None
    else
      match Find(s[1..], p)
      case None => None
      case Some(j) =>
        assert forall i | 1 <= i < j + 1 :: s[i..] == s[1..][i - 1..];
        assert s[j + 1..] == s[1..][j..];
        Some(j + 1)
  }

  /** The length of the longest prefix of `t` whose characters all satisfy `inSet` (a regex `[...]+` run). */
  function Span(t: string, inSet: char -> bool): (k: nat)
    ensures k <= |t|
    ensures forall i | 0 <= i < k :: inSet(t[i])
    ensures k < |t| ==> !inSet(t[k])
    decreases |t|
  {
    if t != [] && inSet(t[0]) then 1 + Span(t[1..], inSet) else 0
  }

  /** `s.split(c)`: the pieces between the separators, empty pieces included. */
  function Split(s: string, c: char): (r: seq<string>)
    ensures |r| >= 1
    ensures forall w | w in r :: c !in w
    decreases |s|
  {
    if s == [] then [""]
    else
      var rest := Split(s[1..], c);
      if s[0] == c then [""] + rest
      else
        assert rest[0] in rest;
        [[s[0]] + rest[0]] + rest[1..]
  }

  /** `parts.join(sep)`. */
  function Join(parts: seq<string>, sep: string): (r: string)
    decreases |parts|
  {
    if parts == [] then ""
    else if |parts| == 1 then parts[0]
    else parts[0] + sep + Join(parts[1..], sep)
  }

  lemma {:induction false} JoinCons(w: string, rest: seq<string>, sep: string)
    requires rest != []
    ensures Join([w] + rest, sep) == w + sep + Join(rest, sep)
  {
    assert ([w] + rest)[1..] == rest;
  }

  /** Joining the pieces of a split with the separator gives back the text. */
  lemma {:induction false} JoinSplit(s: string, c: char)
    ensures Join(Split(s, c), [c]) == s
    decreases |s|
  {
    if s != [] {
      var rest := Split(s[1..], c);
      JoinSplit(s[1..], c);
      assert s == [s[0]] + s[1..];
      if s[0] == c {
        JoinCons("", rest, [c]);
      } else if |rest| == 1 {
        assert Split(s, c) == [[s[0]] + rest[0]];
      } else {
        JoinCons([s[0]] + rest[0], rest[1..], [c]);
        assert [rest[0]] + rest[1..] == rest;
        JoinCons(rest[0], rest[1..], [c]);
      }
    }
  }

  /** Splitting a word without separators followed by more text extends the first piece. */
  lemma {:induction false} SplitWord(w: string, t: string, c: char)
    requires c !in w
    ensures Split(w + t, c) == [w + Split(t, c)[0]] + Split(t, c)[1..]
    decreases |w|
  {
    if w != [] {
      assert (w + t)[1..] == w[1..] + t;
      assert w[0] in w;
      assert w == [w[0]] + w[1..];
      SplitWord(w[1..], t, c);
      assert [w[0]] + (w[1..] + Split(t, c)[0]) == w + Split(t, c)[0];
    } else {
      var r := Split(t, c);
      assert w + t == t;
      assert w + r[0] == r[0];
      assert [r[0]] + r[1..] == r;
    }
  }

  /** Splitting a join of separator-free pieces gives back the pieces. */
  lemma {:induction false} SplitJoin(parts: seq<string>, c: char)
    requires |parts| >= 1
    requires forall w | w in parts :: c !in w
    ensures Split(Join(parts, [c]), c) == parts
    decreases |parts|
  {
    assert parts[0] in parts;
    if |parts| == 1 {
      SplitWord(parts[0], "", c);
      assert parts[0] + "" == parts[0];
      assert Split("", c) == [""];
      assert parts == [parts[0]];
    } else {
      var tail := Join(parts[1..], [c]);
      assert forall w | w in parts[1..] :: w in parts;
      SplitJoin(parts[1..], c);
      assert Join(parts, [c]) == parts[0] + ([c] + tail);
      SplitWord(parts[0], [c] + tail, c);
      assert ([c] + tail)[1..] == tail;
      assert Split([c] + tail, c) == [""] + parts[1..];
      assert parts[0] + "" == parts[0];
      assert parts == [parts[0]] + parts[1..];
    }
  }

  /** A join of a prefix of the pieces is a prefix of the join of all of them. */
  lemma {:induction false} JoinPrefix(parts: seq<string>, k: nat, sep: string)
    requires 1 <= k <= |parts|
    ensures IsPrefix(Join(parts[..k], sep), Join(parts, sep))
    decreases k
  {
    if k == |parts| {
      assert parts[..k] == parts;
    } else {
      if k == 1 {
        assert parts[..1] == [parts[0]];
        assert [parts[0]] + parts[1..] == parts;
        JoinCons(parts[0], parts[1..], sep);
        assert Join(parts, sep)[..|parts[0]|] == parts[0];
      } else {
        JoinPrefix(parts[1..], k - 1, sep);
        assert parts[..k] == [parts[0]] + parts[1..][..k - 1];
        JoinCons(parts[0], parts[1..][..k - 1], sep);
        JoinCons(parts[0], parts[1..], sep);
        var a := Join(parts[1..][..k - 1], sep);
        var b := Join(parts[1..], sep);
        assert b[..|a|] == a;
        assert (parts[0] + sep + b)[..|parts[0] + sep + a|] == parts[0] + sep + b[..|a|];
      }
    }
  }

  /** The characters `String.prototype.trim` removes: white space and line terminators. */
  predicate IsSpace(c: char) {
    var n := c as int;
    n == 0x09 || n == 0x0A || n == 0x0B || n == 0x0C || n == 0x0D || n == 0x20 || n == 0xA0
    || n == 0x1680 || (0x2000 <= n <= 0x200A) || n == 0x2028 || n == 0x2029 || n == 0x202F
    || n == 0x205F || n == 0x3000 || n == 0xFEFF
  }

  function TrimStart(s: string): (r: string)
    ensures |r| <= |s| && r == s[|s| - |r|..]
    ensures forall i | 0 <= i < |s| - |r| :: IsSpace(s[i])
    ensures r == [] || !IsSpace(r[0])
    decreases |s|
  {
    if s != [] && IsSpace(s[0]) then TrimStart(s[1..]) else s
  }

  function TrimEnd(s: string): (r: string)
    ensures |r| <= |s| && r == s[..|r|]
    ensures forall i | |r| <= i < |s| :: IsSpace(s[i])
    ensures r == [] || !IsSpace(r[|r| - 1])
    decreases |s|
  {
    if s != [] && IsSpace(s[|s| - 1]) then TrimEnd(s[..|s| - 1]) else s
  }

  /** `s.trim()`. */
  function Trim(s: string): (r: string) {
    TrimEnd(TrimStart(s))
  }

  /** `s.trim()` is empty exactly when every character of `s` is white space. */
  lemma TrimEmptyIff(s: string)
    ensures Trim(s) == "" <==> forall i | 0 <= i < |s| :: IsSpace(s[i])
  {
  }

  /** Everything of `s` outside the slice `s[i..j]` is white space. */
  predicate SpaceAround(s: string, i: nat, j: nat)
    requires i <= j <= |s|
  {
    (forall k | 0 <= k < i :: IsSpace(s[k])) && (forall k | j <= k < |s| :: IsSpace(s[k]))
  }

  /**
   * Cutting a suffix `t` off `s` and then a prefix `r` off `t`, where everything cut satisfies
   * `p`, leaves a slice of `s` with only such characters around it.
   */
  lemma CutTwice(s: string, t: string, r: string, p: char -> bool)
    requires |t| <= |s| && t == s[|s| - |t|..] && forall k | 0 <= k < |s| - |t| :: p(s[k])
    requires |r| <= |t| && r == t[..|r|] && forall k | |r| <= k < |t| :: p(t[k])
    ensures |s| - |t| + |r| <= |s| && r == s[|s| - |t|..|s| - |t| + |r|]
    ensures forall k | |s| - |t| + |r| <= k < |s| :: p(s[k])
  {
    var i := |s| - |t|;
    forall k | i + |r| <= k < |s| ensures p(s[k]) {
      assert s[k] == t[k - i];
    }
  }

  /** `s.trim()` is a slice of `s` with only white space around it. */
  lemma TrimSlice(s: string)
    ensures exists i, j | 0 <= i <= j <= |s| :: Trim(s) == s[i..j] && SpaceAround(s, i, j)
  {
    var t := TrimStart(s);
    var r := TrimEnd(t);
    CutTwice(s, t, r, IsSpace);
    var i := |s| - |t|;
    var j := i + |r|;
    assert SpaceAround(s, i, j);
    assert Trim(s) == s[i..j];
  }

  /** `s.trim()` neither starts nor ends with white space. */
  lemma TrimEdges(s: string)
    ensures Trim(s) == [] || (!IsSpace(Trim(s)[0]) && !IsSpace(Trim(s)[|Trim(s)| - 1]))
  {
    var t := TrimStart(s);
    var r := TrimEnd(t);
    if r != [] {
      assert r[0] == t[0];
    }
  }

  /**
   * `s.trim()` is a slice of `s` that neither starts nor ends with white space, and everything
   * cut off around it is white space.
   */
  lemma TrimShape(s: string)
    ensures exists i, j | 0 <= i <= j <= |s| :: Trim(s) == s[i..j] && SpaceAround(s, i, j)
    ensures Trim(s) == [] || (!IsSpace(Trim(s)[0]) && !IsSpace(Trim(s)[|Trim(s)| - 1]))
  {
    TrimSlice(s);
    TrimEdges(s);
  }

  function DigitChar(d: nat): (c: char)
    requires d < 10
  {
    "0123456789"[d]
  }

  predicate IsDigit(c: char) {
    '0' <= c <= '9'
  }

  /** The decimal numeral of `n`, as JavaScript prints a non-negative integer. */
  function NatToString(n: nat): (r: string)
    ensures |r| >= 1
    ensures forall i | 0 <= i < |r| :: IsDigit(r[i])
    ensures n >= 10 <==> |r| >= 2
    decreases n
  {
    if n < 10 then [DigitChar(n)] else NatToString(n / 10) + [DigitChar(n % 10)]
  }

  /** Distinct numbers have distinct numerals. */
  lemma {:induction false} NatToStringInjective(a: nat, b: nat)
    requires NatToString(a) == NatToString(b)
    ensures a == b
    decreases a
  {
    if a >= 10 {
      var ra, rb := NatToString(a), NatToString(b);
      assert ra[..|ra| - 1] == NatToString(a / 10);
      assert rb[..|rb| - 1] == NatToString(b / 10);
      NatToStringInjective(a / 10, b / 10);
      assert DigitChar(a % 10) == ra[|ra| - 1] == rb[|rb| - 1] == DigitChar(b % 10);
    }
  }

  /** The numeral of an integer, with a leading `-` when it is negative. */
  function IntToString(i: int): (r: string)
    ensures |r| >= 1 && (i < 0 <==> r[0] == '-')
  {
    if i < 0 then "-" + NatToString(-i) else NatToString(i)
  }

  function AsciiUpper(c: char): (u: char) {
    if 'a' <= c <= 'z' then (c as int - 'a' as int + 'A' as int) as char else c
  }

  /** `s.charAt(0).toUpperCase() + s.slice(1)` for ASCII text. */
  function Capitalize(s: string): (r: string)
    ensures |r| == |s| && (|s| > 0 ==> r[1..] == s[1..])
    ensures |s| > 0 ==> r[0] == AsciiUpper(s[0])
  {
    if s == [] then [] else [AsciiUpper(s[0])] + s[1..]
  }
}
