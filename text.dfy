/** The few Python `str` operations the plugins use, on `seq<char>`:
    ASCII `lower`, `rstrip`/`lstrip`/`strip` with a set of characters,
    `split(c)[0]` (the text before the first `c`), `join`/`split` on a
    separator character, and Python's code-point-wise string ordering. */
module Text {

  /** A decimal digit. */
  predicate IsDigit(c: char) {
    '0' <= c <= '9'
  }

  predicate IsUpper(c: char) {
    'A' <= c <= 'Z'
  }

  function LowerChar(c: char): char {
    if IsUpper(c) then (c as int + 32) as char else c
  }

  /** `s.lower()`, restricted to ASCII letters. */
  function Lower(s: string): (r: string)
    ensures |r| == |s|
    ensures forall i :: 0 <= i < |r| ==> !IsUpper(r[i])
    ensures forall i :: 0 <= i < |s| && !IsUpper(s[i]) ==> r[i] == s[i]
    ensures forall i :: 0 <= i < |s| && IsUpper(s[i]) ==> r[i] as int == s[i] as int + 32
  {
    seq(|s|, i requires 0 <= i < |s| => LowerChar(s[i]))
  }

  /** Lowering a string that has no upper-case letter changes nothing; in
      particular `Lower` is idempotent. */
  lemma LowerNoUpper(s: string)
    requires forall i :: 0 <= i < |s| ==> !IsUpper(s[i])
    ensures Lower(s) == s
  {
  }

  lemma LowerIdempotent(s: string)
    ensures Lower(Lower(s)) == Lower(s)
  {
    LowerNoUpper(Lower(s));
  }

  lemma LowerAppend(a: string, b: string)
    ensures Lower(a + b) == Lower(a) + Lower(b)
  {
    assert forall i :: 0 <= i < |a + b| ==> Lower(a + b)[i] == (Lower(a) + Lower(b))[i];
  }

  /** `s.rstrip(cs)`: the longest prefix of `s` that does not end in a
      character of `cs`; everything cut off is in `cs`. */
  function RStrip(s: string, cs: set<char>): (r: string)
    ensures |r| <= |s| && r == s[..|r|]
    ensures r == [] || r[|r| - 1] !in cs
    ensures forall i :: |r| <= i < |s| ==> s[i] in cs
    decreases |s|
  {
    if s != [] && s[|s| - 1] in cs then RStrip(s[..|s| - 1], cs) else s
  }

  /** `s.lstrip(cs)`: the longest suffix of `s` that does not start with a
      character of `cs`; everything cut off is in `cs`. */
  function LStrip(s: string, cs: set<char>): (r: string)
    ensures |r| <= |s| && r == s[|s| - |r|..]
    ensures r == [] || r[0] !in cs
    ensures forall i :: 0 <= i < |s| - |r| ==> s[i] in cs
    decreases |s|
  {
    if s != [] && s[0] in cs then LStrip(s[1..], cs) else s
  }

  /** `s.strip(cs)`: `lstrip` of what `rstrip` keeps. So the result is the
      suffix of `rstrip(s)` whose cut-off front is all in `cs`, and it
      neither starts nor ends with a character of `cs`. */
  function Strip(s: string, cs: set<char>): (r: string)
    ensures var t := RStrip(s, cs);
            |r| <= |t| && r == t[|t| - |r|..] &&
            (forall k :: 0 <= k < |t| - |r| ==> t[k] in cs)
    ensures r == [] || (r[0] !in cs && r[|r| - 1] !in cs)
  {
    var t := RStrip(s, cs);
    var r := LStrip(t, cs);
    assert r != [] ==> r[|r| - 1] == t[|t| - 1];
    r
  }

  /** `strip` keeps a slice of `s`: everything in front of it and everything
      after it is in `cs`. */
  lemma StripSlice(s: string, cs: set<char>)
    ensures var t, r := RStrip(s, cs), Strip(s, cs);
            |r| <= |t| <= |s| && r == s[|t| - |r|..|t|] &&
            (forall k :: 0 <= k < |t| - |r| ==> s[k] in cs) &&
            (forall k :: |t| <= k < |s| ==> s[k] in cs)
  {
    var t := RStrip(s, cs);
    assert forall k :: 0 <= k < |t| ==> s[k] == t[k];
  }

  /** `strip` removes one leading character of `cs` from a word whose ends
      are not in `cs`. */
  lemma StripLeadingOne(c: char, w: string, cs: set<char>)
    requires c in cs && w != [] && w[0] !in cs && w[|w| - 1] !in cs
    ensures Strip([c] + w, cs) == w
  {
    var s := [c] + w;
    assert s[|s| - 1] == w[|w| - 1];
    assert RStrip(s, cs) == s;
    assert s[1..] == w;
  }

  /** `strip` removes one trailing character of `cs` from a word whose ends
      are not in `cs`. */
  lemma StripTrailingOne(w: string, c: char, cs: set<char>)
    requires c in cs && w != [] && w[0] !in cs && w[|w| - 1] !in cs
    ensures Strip(w + [c], cs) == w
  {
    var s := w + [c];
    assert s[..|s| - 1] == w;
    assert RStrip(w, cs) == w;
    assert RStrip(s, cs) == w;
    assert LStrip(w, cs) == w;
  }

  /** Appending characters of `cs` does not change what `rstrip` keeps. */
  lemma {:induction false} RStripAppend(s: string, d: string, cs: set<char>)
    requires forall i :: 0 <= i < |d| ==> d[i] in cs
    ensures RStrip(s + d, cs) == RStrip(s, cs)
    decreases |d|
  {
    if d != [] {
      assert (s + d)[..|s + d| - 1] == s + d[..|d| - 1];
      RStripAppend(s, d[..|d| - 1], cs);
    } else {
      assert s + d == s;
    }
  }

  /** `s.split(c, ...)[0]`: the text before the first `c`, or all of `s`. */
  function CutAt(s: string, c: char): (r: string)
    ensures |r| <= |s| && r == s[..|r|]
    ensures c !in r
    ensures |r| == |s| || s[|r|] == c
  {
    if s == [] then []
    else if s[0] == c then []
    else [s[0]] + CutAt(s[1..], c)
  }

  /** Cutting keeps out a character the text did not hold, and a cut of a
      prefix is a prefix. */
  lemma CutAtPrefix(s: string, c: char, t: string)
    requires |s| <= |t| && s == t[..|s|]
    ensures forall d :: d !in s ==> d !in CutAt(s, c)
    ensures CutAt(s, c) == t[..|CutAt(s, c)|]
  {
    var r := CutAt(s, c);
    assert forall i :: 0 <= i < |r| ==> r[i] == s[i];
  }

  /** `sep.join(l)`. */
  function Join(l: seq<string>, sep: char): string
  {
    if |l| == 0 then []
    else if |l| == 1 then l[0]
    else l[0] + [sep] + Join(l[1..], sep)
  }

  /** `s.split(sep)`: always at least one piece, and no piece holds `sep`. */
  function Split(s: string, sep: char): (r: seq<string>)
    ensures |r| >= 1
    ensures forall i :: 0 <= i < |r| ==> sep !in r[i]
  {
    if s == [] then [[]]
    else
      var rest := Split(s[1..], sep);
      if s[0] == sep then [[]] + rest
      else [[s[0]] + rest[0]] + rest[1..]
  }

  /** Splitting then joining gives the text back. */
  lemma {:induction false} JoinSplit(s: string, sep: char)
    ensures Join(Split(s, sep), sep) == s
  {
    if s != [] {
      var rest := Split(s[1..], sep);
      JoinSplit(s[1..], sep);
      if s[0] != sep {
        var r := Split(s, sep);
        assert r[1..] == rest[1..];
        if |rest| == 1 {
          assert Join(r, sep) == [s[0]] + rest[0];
        } else {
          assert Join(r, sep) == [s[0]] + rest[0] + [sep] + Join(rest[1..], sep);
          assert Join(rest, sep) == rest[0] + [sep] + Join(rest[1..], sep);
        }
      }
    }
  }

  /** A prefix without the separator sticks to the first piece. */
  lemma {:induction false} SplitPrefix(w: string, t: string, sep: char)
    requires sep !in w
    ensures Split(w + t, sep) == [w + Split(t, sep)[0]] + Split(t, sep)[1..]
  {
    if w == [] {
      assert w + t == t;
      assert w + Split(t, sep)[0] == Split(t, sep)[0];
    } else {
      assert (w + t)[1..] == w[1..] + t;
      SplitPrefix(w[1..], t, sep);
      assert [w[0]] + (w[1..] + Split(t, sep)[0]) == w + Split(t, sep)[0];
    }
  }

  /** Joining then splitting gives the list back, provided the list is not
      empty and no element holds the separator. */
  lemma {:induction false} SplitJoin(l: seq<string>, sep: char)
    requires |l| >= 1
    requires forall i :: 0 <= i < |l| ==> sep !in l[i]
    ensures Split(Join(l, sep), sep) == l
  {
    if |l| == 1 {
      SplitPrefix(l[0], [], sep);
      assert l[0] + [] == l[0];
    } else {
      SplitJoin(l[1..], sep);
      var j := Join(l[1..], sep);
      assert l[0] + [sep] + j == l[0] + ([sep] + j);
      SplitPrefix(l[0], [sep] + j, sep);
      assert ([sep] + j)[1..] == j;
      assert Split([sep] + j, sep) == [[]] + l[1..];
      assert l[0] + [] == l[0];
    }
  }

  /** Python's `<=` on strings: code point by code point, a proper prefix
      first. */
  predicate LexLe(a: string, b: string) {
    |a| == 0 || (|b| != 0 && (a[0] < b[0] || (a[0] == b[0] && LexLe(a[1..], b[1..]))))
  }

  lemma {:induction false} LexLeTotal(a: string, b: string)
    ensures LexLe(a, b) || LexLe(b, a)
  {
    if |a| != 0 && |b| != 0 && a[0] == b[0] {
      LexLeTotal(a[1..], b[1..]);
    }
  }

  lemma {:induction false} LexLeTrans(a: string, b: string, c: string)
    requires LexLe(a, b) && LexLe(b, c)
    ensures LexLe(a, c)
  {
    if |a| != 0 && a[0] == b[0] && b[0] == c[0] {
      LexLeTrans(a[1..], b[1..], c[1..]);
    }
  }

  lemma {:induction false} LexLeAntisymmetric(a: string, b: string)
    requires LexLe(a, b) && LexLe(b, a)
    ensures a == b
  {
    if |a| != 0 {
      LexLeAntisymmetric(a[1..], b[1..]);
      assert a == [a[0]] + a[1..];
      assert b == [b[0]] + b[1..];
    }
  }
}
