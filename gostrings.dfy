/**
 * The pieces of Go's `strings` package and of Go's string ordering that the
 * update check relies on: TrimSpace, Split and SplitN on a single space,
 * Join with a single space, and the ordering behind `<=` on strings.
 */
module GoStrings {
  import opened Wrappers

  function Min(a: nat, b: nat): nat { if a <= b then a else b }

  /** unicode.IsSpace: the characters with the Unicode White_Space property. */
  predicate IsSpace(c: char) {
    || 0x09 <= c as int <= 0x0D
    || c as int == 0x20 || c as int == 0x85 || c as int == 0xA0 || c as int == 0x1680
    || 0x2000 <= c as int <= 0x200A
    || c as int == 0x2028 || c as int == 0x2029 || c as int == 0x202F
    || c as int == 0x205F || c as int == 0x3000
  }

  /** Number of occurrences of `c` in `s`. */
  function Count(s: string, c: char): nat
  {
    if s == [] then 0 else (if s[0] == c then 1 else 0) + Count(s[1..], c)
  }

  lemma {:induction false} CountAppend(a: string, b: string, c: char)
    ensures Count(a + b, c) == Count(a, c) + Count(b, c)
  {
    if a == [] {
      assert a + b == b;
    } else {
      assert (a + b)[1..] == a[1..] + b;
      CountAppend(a[1..], b, c);
    }
  }

  /** Nothing is counted exactly when `c` does not occur. */
  lemma {:induction false} CountZero(s: string, c: char)
    ensures Count(s, c) == 0 <==> c !in s
  {
    if s != [] {
      CountZero(s[1..], c);
      assert s == [s[0]] + s[1..];
    }
  }

  /**
   * strings.Cut(s, " "): the text before the first space of `s` and the
   * text after it; None when `s` has no space.
   */
  function Cut(s: string): Option<(string, string)>
  {
    if s == [] then None
    else if s[0] == ' ' then Some(([], s[1..]))
    else match Cut(s[1..])
      case None => None
      case Some((before, after)) => Some(([s[0]] + before, after))
  }

  /**
   * Cut finds a space exactly when `s` has one; it cuts at the first one
   * and loses nothing but that space.
   */
  lemma {:induction false} CutSplits(s: string)
    ensures Cut(s).None? <==> ' ' !in s
    ensures Cut(s).Some? ==>
      && s == Cut(s).value.0 + " " + Cut(s).value.1
      && ' ' !in Cut(s).value.0
      && Count(s, ' ') == Count(Cut(s).value.1, ' ') + 1
  {
    if s != [] {
      CutSplits(s[1..]);
      assert s == [s[0]] + s[1..];
    }
  }

  /** The first space of `before + " " + after` is the one after `before` when `before` has none. */
  lemma {:induction false} CutAt(before: string, after: string)
    requires ' ' !in before
    ensures Cut(before + " " + after) == Some((before, after))
  {
    var s := before + " " + after;
    if before == [] {
      assert s == " " + after;
    } else {
      assert s[1..] == before[1..] + " " + after;
      CutAt(before[1..], after);
      assert [before[0]] + before[1..] == before;
    }
  }

  // ---------------------------------------------------------------------
  // TrimSpace

  /** strings.TrimLeftFunc(s, unicode.IsSpace) */
  function TrimLeft(s: string): string
  {
    if s != [] && IsSpace(s[0]) then TrimLeft(s[1..]) else s
  }

  /** strings.TrimRightFunc(s, unicode.IsSpace) */
  function TrimRight(s: string): string
  {
    if s != [] && IsSpace(s[|s| - 1]) then TrimRight(s[..|s| - 1]) else s
  }

  /** strings.TrimSpace: `s` without its leading and trailing white space. */
  function TrimSpace(s: string): string
  {
    TrimRight(TrimLeft(s))
  }

  /** TrimLeft keeps a suffix of `s` and cuts only white space. */
  lemma {:induction false} TrimLeftCuts(s: string)
    ensures var r := TrimLeft(s);
      && |r| <= |s| && r == s[|s| - |r|..]
      && (forall i | 0 <= i < |s| - |r| :: IsSpace(s[i]))
  {
    if s != [] && IsSpace(s[0]) {
      var r := TrimLeft(s[1..]);
      TrimLeftCuts(s[1..]);
      assert s[1..][|s| - 1 - |r|..] == s[|s| - |r|..];
      forall i | 0 <= i < |s| - |r|
        ensures IsSpace(s[i])
      {
        if i > 0 {
          assert s[i] == s[1..][i - 1];
        }
      }
    }
  }

  /** What TrimLeft keeps does not start with white space. */
  lemma {:induction false} TrimLeftStart(s: string)
    ensures TrimLeft(s) == [] || !IsSpace(TrimLeft(s)[0])
  {
    if s != [] && IsSpace(s[0]) {
      TrimLeftStart(s[1..]);
    }
  }

  /** TrimRight keeps a prefix of `s` that does not end with white space and cuts only white space. */
  lemma {:induction false} TrimRightCuts(s: string)
    ensures var r := TrimRight(s);
      && |r| <= |s| && r == s[..|r|]
      && (r == [] || !IsSpace(r[|r| - 1]))
      && (forall i | |r| <= i < |s| :: IsSpace(s[i]))
  {
    if s != [] && IsSpace(s[|s| - 1]) {
      TrimRightCuts(s[..|s| - 1]);
    }
  }

  /**
   * TrimSpace(s) is the slice of `s` starting at `k` whose ends are not
   * white space, and everything cut off on either side is white space.
   */
  lemma TrimSpaceCuts(s: string)
    ensures var r, k := TrimSpace(s), |s| - |TrimLeft(s)|;
      && 0 <= k && k + |r| <= |s|
      && r == s[k..k + |r|]
      && (forall i | 0 <= i < k :: IsSpace(s[i]))
      && (forall i | k + |r| <= i < |s| :: IsSpace(s[i]))
      && (r == [] || (!IsSpace(r[0]) && !IsSpace(r[|r| - 1])))
  {
    var l := TrimLeft(s);
    TrimLeftCuts(s);
    TrimLeftStart(s);
    TrimRightCuts(l);
    var r := TrimRight(l);
    assert r != [] ==> r[0] == l[0];
  }

  /** Trimming twice trims nothing more. */
  lemma TrimSpaceIdempotent(s: string)
    ensures TrimSpace(TrimSpace(s)) == TrimSpace(s)
  {
    TrimSpaceCuts(s);
    TrimSpaceOfTrimmed(TrimSpace(s));
  }

  /** A string with no white space at either end is its own TrimSpace. */
  lemma TrimSpaceOfTrimmed(s: string)
    requires s == [] || (!IsSpace(s[0]) && !IsSpace(s[|s| - 1]))
    ensures TrimSpace(s) == s
  {
    assert TrimLeft(s) == s;
    assert TrimRight(s) == s;
  }

  // ---------------------------------------------------------------------
  // Split, SplitN and Join on a single space

  /** strings.Join(parts, " ") */
  function Join(parts: seq<string>): string
  {
    if |parts| == 0 then ""
    else if |parts| == 1 then parts[0]
    else parts[0] + " " + Join(parts[1..])
  }

  /** strings.Split(s, " "): the pieces between the single spaces of `s`. */
  function Split(s: string): seq<string>
    decreases |s|
  {
    match Cut(s)
    case None => [s]
    case Some((before, after)) =>
      CutSplits(s);
      [before] + Split(after)
  }

  /** There is one more piece than there are spaces, and no piece holds a space. */
  lemma {:induction false} SplitPieces(s: string)
    ensures |Split(s)| == Count(s, ' ') + 1
    ensures forall i | 0 <= i < |Split(s)| :: ' ' !in Split(s)[i]
    decreases |s|
  {
    CutSplits(s);
    if Cut(s).None? {
      CountZero(s, ' ');
    } else {
      var after := Cut(s).value.1;
      SplitPieces(after);
      assert Split(s)[1..] == Split(after);
    }
  }

  /** Joining the pieces of Split with spaces gives the string back. */
  lemma {:induction false} JoinOfSplit(s: string)
    ensures Join(Split(s)) == s
    decreases |s|
  {
    CutSplits(s);
    if Cut(s).Some? {
      var after := Cut(s).value.1;
      JoinOfSplit(after);
      assert Split(s)[1..] == Split(after);
    }
  }

  /** Split undoes Join whenever no piece holds a space. */
  lemma {:induction false} SplitOfJoin(parts: seq<string>)
    requires |parts| >= 1
    requires forall i | 0 <= i < |parts| :: ' ' !in parts[i]
    ensures Split(Join(parts)) == parts
  {
    if |parts| == 1 {
      CutSplits(parts[0]);
    } else {
      CutAt(parts[0], Join(parts[1..]));
      SplitOfJoin(parts[1..]);
    }
  }

  /**
   * strings.SplitN(s, " ", n) for n >= 1: at most `n` pieces, where the last
   * piece keeps every space after the (n-1)th.
   */
  function SplitN(s: string, n: nat): seq<string>
    requires n >= 1
    decreases n
  {
    if n == 1 then [s]
    else match Cut(s)
      case None => [s]
      case Some((before, after)) => [before] + SplitN(after, n - 1)
  }

  /**
   * SplitN gives the smaller of `n` and one more than the number of spaces
   * pieces; every piece but the last is free of spaces, and so is the last
   * when fewer than `n` pieces were made.
   */
  lemma {:induction false} SplitNPieces(s: string, n: nat)
    requires n >= 1
    ensures var parts := SplitN(s, n);
      && |parts| == Min(n, Count(s, ' ') + 1)
      && (forall i | 0 <= i < |parts| - 1 :: ' ' !in parts[i])
      && (|parts| < n ==> ' ' !in parts[|parts| - 1])
    decreases n
  {
    CutSplits(s);
    if n == 1 {
    } else if Cut(s).None? {
      CountZero(s, ' ');
    } else {
      var after := Cut(s).value.1;
      SplitNPieces(after, n - 1);
      assert SplitN(s, n)[1..] == SplitN(after, n - 1);
    }
  }

  /** Joining the pieces of SplitN with spaces gives the string back. */
  lemma {:induction false} JoinOfSplitN(s: string, n: nat)
    requires n >= 1
    ensures Join(SplitN(s, n)) == s
    decreases n
  {
    CutSplits(s);
    if n > 1 && Cut(s).Some? {
      var after := Cut(s).value.1;
      JoinOfSplitN(after, n - 1);
      assert SplitN(s, n)[1..] == SplitN(after, n - 1);
    }
  }

  /** With room for every piece, SplitN splits exactly like Split. */
  lemma {:induction false} SplitNIsSplit(s: string, n: nat)
    requires n >= 1 && Count(s, ' ') < n
    ensures SplitN(s, n) == Split(s)
    decreases n
  {
    CutSplits(s);
    if n == 1 {
      CountZero(s, ' ');
    } else if Cut(s).Some? {
      SplitNIsSplit(Cut(s).value.1, n - 1);
    }
  }

  // ---------------------------------------------------------------------
  // Go's `<` and `<=` on strings: byte-wise lexicographic order. For valid
  // UTF-8 the byte order is the code-point order used here.

  /** Go's `a <= b` on strings. */
  predicate LessEq(a: string, b: string)
  {
    if a == [] then true
    else if b == [] then false
    else if a[0] != b[0] then a[0] < b[0]
    else LessEq(a[1..], b[1..])
  }

  /** Go's `a < b` on strings, defined on its own. */
  predicate Less(a: string, b: string)
  {
    if b == [] then false
    else if a == [] then true
    else if a[0] != b[0] then a[0] < b[0]
    else Less(a[1..], b[1..])
  }

  lemma {:induction false} LessEqReflexive(a: string)
    ensures LessEq(a, a)
  {
    if a != [] {
      LessEqReflexive(a[1..]);
    }
  }

  lemma {:induction false} LessEqAntisymmetric(a: string, b: string)
    requires LessEq(a, b) && LessEq(b, a)
    ensures a == b
  {
    if a != [] && b != [] {
      LessEqAntisymmetric(a[1..], b[1..]);
      assert a == [a[0]] + a[1..] && b == [b[0]] + b[1..];
    }
  }

  lemma {:induction false} LessEqTransitive(a: string, b: string, c: string)
    requires LessEq(a, b) && LessEq(b, c)
    ensures LessEq(a, c)
  {
    if a != [] && b != [] && c != [] && a[0] == b[0] == c[0] {
      LessEqTransitive(a[1..], b[1..], c[1..]);
    }
  }

  /** `a < b` is exactly "not `b <= a`": the order is total. */
  lemma {:induction false} LessIsNotLessEq(a: string, b: string)
    ensures Less(a, b) <==> !LessEq(b, a)
  {
    if a != [] && b != [] && a[0] == b[0] {
      LessIsNotLessEq(a[1..], b[1..]);
    }
  }
}
