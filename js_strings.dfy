/**
 * The JavaScript string built-ins the core relies on: `trim`, `split` on a
 * one-character separator and `join`.
 */
module JsStrings {

  /**
   * The characters JavaScript's `String.prototype.trim` removes: the
   * ECMAScript WhiteSpace and LineTerminator code points.
   */
  const JsWhitespace: set<char> :=
    { '\t', '\n', '\U{B}', '\U{C}', '\r', ' ', '\U{A0}', '\U{1680}',
      '\U{2000}', '\U{2001}', '\U{2002}', '\U{2003}', '\U{2004}', '\U{2005}', '\U{2006}', '\U{2007}',
      '\U{2008}', '\U{2009}', '\U{200A}', '\U{2028}', '\U{2029}', '\U{202F}', '\U{205F}', '\U{3000}',
      '\U{FEFF}' }

  predicate IsJsWhitespace(c: char)
  {
    c in JsWhitespace
  }

  /** Every character of `s` is in `ws`. */
  predicate AllIn(s: string, ws: set<char>)
  {
    forall i :: 0 <= i < |s| ==> s[i] in ws
  }

  /** The first position at or after `k` whose character is not in `ws`, or `|s|` if there is none. */
  function SkipFrom(s: string, k: nat, ws: set<char>): (n: nat)
    requires k <= |s|
    ensures k <= n <= |s|
    ensures forall i :: k <= i < n ==> s[i] in ws
    ensures n < |s| ==> s[n] !in ws
    decreases |s| - k
  {
    if k == |s| || s[k] !in ws then k else SkipFrom(s, k + 1, ws)
  }

  /** The position just after the last character before `k` that is not in `ws`, or 0 if there is none. */
  function BackFrom(s: string, k: nat, ws: set<char>): (n: nat)
    requires k <= |s|
    ensures n <= k
    ensures forall i :: n <= i < k ==> s[i] in ws
    ensures n > 0 ==> s[n - 1] !in ws
  {
    if k == 0 || s[k - 1] !in ws then k else BackFrom(s, k - 1, ws)
  }

  /** `s` without its leading characters from `ws`: the longest suffix of `s` not starting with one. */
  function TrimStart(s: string, ws: set<char>): (r: string)
    ensures |r| <= |s| && r == s[|s| - |r|..]
    ensures AllIn(s[..|s| - |r|], ws)
    ensures r == [] || r[0] !in ws
  {
    var n := SkipFrom(s, 0, ws);
    assert forall i :: 0 <= i < n ==> s[..n][i] == s[i];
    s[n..]
  }

  /** `s` without its trailing characters from `ws`: the longest prefix of `s` not ending with one. */
  function TrimEnd(s: string, ws: set<char>): (r: string)
    ensures |r| <= |s| && r == s[..|r|]
    ensures AllIn(s[|r|..], ws)
    ensures r == [] || r[|r| - 1] !in ws
  {
    var n := BackFrom(s, |s|, ws);
    assert forall i :: 0 <= i < |s| - n ==> s[n..][i] == s[n + i];
    s[..n]
  }

  /** `s` trimmed of characters from `ws` at both ends. */
  function TrimBoth(s: string, ws: set<char>): string
  {
    TrimEnd(TrimStart(s, ws), ws)
  }

  /** `String.prototype.trim`. */
  function Trim(s: string): string
  {
    TrimBoth(s, JsWhitespace)
  }

  /** The trim is the slice of `s` that starts where the leading run of `ws` ends. */
  lemma TrimIsSlice(s: string, ws: set<char>)
    ensures var i := |s| - |TrimStart(s, ws)|;
            i + |TrimBoth(s, ws)| <= |s| && TrimBoth(s, ws) == s[i..i + |TrimBoth(s, ws)|]
  {
    var t := TrimStart(s, ws);
    assert TrimEnd(t, ws) == t[..|TrimEnd(t, ws)|];
  }

  /** What follows a suffix's prefix `r` in `s` is what follows `r` in the suffix. */
  lemma AfterPrefixOfSuffix(s: string, t: string, r: string, ws: set<char>)
    requires |t| <= |s| && t == s[|s| - |t|..]
    requires |r| <= |t| && AllIn(t[|r|..], ws)
    ensures AllIn(s[|s| - |t| + |r|..], ws)
  {
    assert s[|s| - |t| + |r|..] == t[|r|..];
  }

  /** Everything after the trim is in `ws`. */
  lemma TrimDropsTrailing(s: string, ws: set<char>)
    ensures var j := |s| - |TrimStart(s, ws)| + |TrimBoth(s, ws)|;
            j <= |s| && AllIn(s[j..], ws)
  {
    var t := TrimStart(s, ws);
    AfterPrefixOfSuffix(s, t, TrimEnd(t, ws), ws);
  }

  /**
   * Trimming keeps the contiguous middle piece of `s` that starts where the
   * leading run of `ws` ends, and drops only characters of `ws` around it.
   */
  lemma TrimIsMiddlePiece(s: string, ws: set<char>)
    ensures var i := |s| - |TrimStart(s, ws)|;
            var j := i + |TrimBoth(s, ws)|;
            && j <= |s| && TrimBoth(s, ws) == s[i..j]
            && AllIn(s[..i], ws) && AllIn(s[j..], ws)
  {
    TrimIsSlice(s, ws);
    TrimDropsTrailing(s, ws);
  }

  /** A trimmed string starts and ends outside `ws`. */
  lemma TrimEnds(s: string, ws: set<char>)
    ensures var r := TrimBoth(s, ws);
            r == [] || (r[0] !in ws && r[|r| - 1] !in ws)
  {
    var t := TrimStart(s, ws);
    var r := TrimEnd(t, ws);
    if r != [] {
      assert r[0] == t[0];
    }
  }

  /** Trimming adds no character: one absent from `s` is absent from its trim. */
  lemma TrimKeepsAbsent(s: string, ws: set<char>, x: char)
    requires x !in s
    ensures x !in TrimBoth(s, ws)
  {
    var t := TrimStart(s, ws);
    var r := TrimEnd(t, ws);
    var i := |s| - |t|;
    forall k | 0 <= k < |r|
      ensures r[k] != x
    {
      assert r[k] == t[k] == s[i + k];
    }
  }

  /** A string with neither end in `ws` is its own trim. */
  lemma TrimOfTrimmed(s: string, ws: set<char>)
    requires s == [] || (s[0] !in ws && s[|s| - 1] !in ws)
    ensures TrimBoth(s, ws) == s
  {
  }

  /** `s.split(sep)`: the pieces of `s` between occurrences of `sep` (at least one piece). */
  function Split(s: string, sep: char): (r: seq<string>)
    ensures |r| >= 1
    ensures forall k :: 0 <= k < |r| ==> sep !in r[k]
  {
    if s == [] then [""]
    else
      var rest := Split(s[1..], sep);
      if s[0] == sep then [""] + rest
      else [[s[0]] + rest[0]] + rest[1..]
  }

  /** `pieces.join(sep)`. */
  function Join(pieces: seq<string>, sep: char): string
  {
    if pieces == [] then ""
    else if |pieces| == 1 then pieces[0]
    else pieces[0] + [sep] + Join(pieces[1..], sep)
  }

  /** Splitting is undone by joining with the same separator. */
  lemma {:induction false} JoinSplit(s: string, sep: char)
    ensures Join(Split(s, sep), sep) == s
  {
    if s != [] {
      var rest := Split(s[1..], sep);
      JoinSplit(s[1..], sep);
      if s[0] == sep {
        assert Split(s, sep) == [""] + rest;
        assert ([""] + rest)[1..] == rest;
      } else {
        var r := [[s[0]] + rest[0]] + rest[1..];
        assert Split(s, sep) == r;
        if |rest| == 1 {
          assert Join(rest, sep) == rest[0];
        } else {
          assert r[1..] == rest[1..];
          assert Join(rest, sep) == rest[0] + [sep] + Join(rest[1..], sep);
        }
      }
    }
  }

  /** Index of the first `sep` in `s`, or `|s|` when there is none. */
  function IndexOf(s: string, sep: char): (k: nat)
    ensures k <= |s|
    ensures sep !in s[..k]
    ensures k < |s| ==> s[k] == sep
  {
    if s == [] || s[0] == sep then 0 else 1 + IndexOf(s[1..], sep)
  }

  /** The first piece of a split is the text before the first separator. */
  lemma {:induction false} SplitFirstPiece(s: string, sep: char)
    ensures Split(s, sep)[0] == s[..IndexOf(s, sep)]
  {
    if s != [] && s[0] != sep {
      SplitFirstPiece(s[1..], sep);
      assert s[..IndexOf(s, sep)] == [s[0]] + s[1..][..IndexOf(s[1..], sep)];
    }
  }

  /** Joining two non-empty lists puts one separator between their joins. */
  lemma {:induction false} JoinAppend(a: seq<string>, b: seq<string>, sep: char)
    requires a != [] && b != []
    ensures Join(a + b, sep) == Join(a, sep) + [sep] + Join(b, sep)
  {
    if |a| == 1 {
      assert (a + b)[1..] == b;
    } else {
      JoinAppend(a[1..], b, sep);
      assert (a + b)[1..] == a[1..] + b;
    }
  }

  /** A join of non-empty pieces is empty exactly when there are no pieces. */
  lemma {:induction false} JoinEmptyIff(pieces: seq<string>, sep: char)
    requires forall k :: 0 <= k < |pieces| ==> pieces[k] != ""
    ensures Join(pieces, sep) == "" <==> pieces == []
  {
    if |pieces| > 1 {
      assert |Join(pieces, sep)| >= |pieces[0]|;
    }
  }

  /** A piece without the separator splits into itself. */
  lemma {:induction false} SplitWithoutSep(x: string, sep: char)
    requires sep !in x
    ensures Split(x, sep) == [x]
  {
    if x != [] {
      SplitWithoutSep(x[1..], sep);
      assert [x[0]] + x[1..] == x;
    }
  }

  /** Splitting at the first separator peels off the piece before it. */
  lemma {:induction false} SplitAfterPiece(x: string, t: string, sep: char)
    requires sep !in x
    ensures Split(x + [sep] + t, sep) == [x] + Split(t, sep)
  {
    var s := x + [sep] + t;
    if x == [] {
      assert s[1..] == t;
    } else {
      SplitAfterPiece(x[1..], t, sep);
      assert s[1..] == x[1..] + [sep] + t;
      assert [x[0]] + x[1..] == x;
    }
  }

  /** Joining pieces free of the separator is undone by splitting. */
  lemma {:induction false} SplitJoin(pieces: seq<string>, sep: char)
    requires pieces != []
    requires forall k :: 0 <= k < |pieces| ==> sep !in pieces[k]
    ensures Split(Join(pieces, sep), sep) == pieces
  {
    if |pieces| == 1 {
      SplitWithoutSep(pieces[0], sep);
    } else {
      SplitJoin(pieces[1..], sep);
      SplitAfterPiece(pieces[0], Join(pieces[1..], sep), sep);
      assert [pieces[0]] + pieces[1..] == pieces;
    }
  }
}
