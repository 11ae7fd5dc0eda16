/** Whole-string shell-glob matching as `fnmatch.fnmatch` does it on POSIX
    (where `os.path.normcase` changes nothing), without bracket classes:
    `*` matches any run of characters, `?` any one character, every other
    character itself. */
module Glob {

  predicate IsWildcard(c: char) {
    c == '*' || c == '?'
  }

  predicate NoWildcards(p: string) {
    forall i :: 0 <= i < |p| ==> !IsWildcard(p[i])
  }

  /** Does the whole of `name` match the pattern `pat`? */
  predicate Matches(name: string, pat: string)
    decreases |pat|, |name|
  {
    if pat == [] then name == []
    else if pat[0] == '*' then Matches(name, pat[1..]) || (name != [] && Matches(name[1..], pat))
    else name != [] && (pat[0] == '?' || pat[0] == name[0]) && Matches(name[1..], pat[1..])
  }

  /** A pattern without wildcards matches exactly itself. */
  lemma {:induction false} LiteralMatchesItself(name: string, pat: string)
    requires NoWildcards(pat)
    ensures Matches(name, pat) <==> name == pat
  {
    if pat != [] && name != [] {
      LiteralMatchesItself(name[1..], pat[1..]);
      if name[0] == pat[0] && name[1..] == pat[1..] {
        assert name == [name[0]] + name[1..];
        assert pat == [pat[0]] + pat[1..];
      }
    }
  }

  /** A pattern without `*` only matches names of its own length. */
  lemma {:induction false} StarFreeLength(name: string, pat: string)
    requires forall i :: 0 <= i < |pat| ==> pat[i] != '*'
    requires Matches(name, pat)
    ensures |name| == |pat|
  {
    if pat != [] {
      StarFreeLength(name[1..], pat[1..]);
    }
  }

  /** A pattern without `*` matches exactly the names of its length that
      agree with it at every position where it has no `?`. */
  lemma {:induction false} StarFreeMatches(name: string, pat: string)
    requires forall i :: 0 <= i < |pat| ==> pat[i] != '*'
    ensures Matches(name, pat) <==>
            |name| == |pat| && forall i :: 0 <= i < |pat| ==> pat[i] == '?' || pat[i] == name[i]
  {
    if pat != [] && name != [] {
      StarFreeMatches(name[1..], pat[1..]);
      if |name| == |pat| && forall i :: 0 <= i < |pat| ==> pat[i] == '?' || pat[i] == name[i] {
        assert forall i :: 0 <= i < |pat[1..]| ==> pat[1..][i] == pat[i + 1] && name[1..][i] == name[i + 1];
      }
    }
  }

  /** A leading `*` matches a name iff the rest of the pattern matches some
      suffix of it. */
  lemma {:induction false} LeadingStar(name: string, pat: string)
    ensures Matches(name, ['*'] + pat) <==> exists k :: 0 <= k <= |name| && Matches(name[k..], pat)
    decreases |name|
  {
    var sp := ['*'] + pat;
    assert sp[1..] == pat;
    assert name[0..] == name;
    if name != [] {
      LeadingStar(name[1..], pat);
      if Matches(name, sp) && !Matches(name, pat) {
        var k :| 0 <= k <= |name[1..]| && Matches(name[1..][k..], pat);
        assert name[1..][k..] == name[k + 1..];
      }
      if exists k :: 0 <= k <= |name| && Matches(name[k..], pat) {
        var k :| 0 <= k <= |name| && Matches(name[k..], pat);
        if k > 0 {
          assert name[1..][k - 1..] == name[k..];
        }
      }
    }
  }

  /** `*` on its own matches every name. */
  lemma StarMatchesAll(name: string)
    ensures Matches(name, "*")
  {
    LeadingStar(name, "");
    assert name[|name|..] == "";
  }

  /** `*lit` matches exactly the names that end in `lit`. */
  lemma MatchesSuffix(name: string, lit: string)
    requires NoWildcards(lit)
    ensures Matches(name, ['*'] + lit) <==> (|lit| <= |name| && name[|name| - |lit|..] == lit)
  {
    LeadingStar(name, lit);
    if Matches(name, ['*'] + lit) {
      var k :| 0 <= k <= |name| && Matches(name[k..], lit);
      LiteralMatchesItself(name[k..], lit);
    }
    if |lit| <= |name| && name[|name| - |lit|..] == lit {
      LiteralMatchesItself(name[|name| - |lit|..], lit);
    }
  }

  /** `lit*` matches exactly the names that start with `lit`. */
  lemma {:induction false} MatchesPrefix(name: string, lit: string)
    requires NoWildcards(lit)
    ensures Matches(name, lit + ['*']) <==> (|lit| <= |name| && name[..|lit|] == lit)
  {
    if lit == [] {
      assert lit + ['*'] == "*";
      StarMatchesAll(name);
    } else {
      assert (lit + ['*'])[1..] == lit[1..] + ['*'];
      if name != [] {
        MatchesPrefix(name[1..], lit[1..]);
        if |lit| <= |name| && name[..|lit|] == lit {
          assert name[1..][..|lit| - 1] == name[..|lit|][1..];
        }
        if name[0] == lit[0] && |lit| - 1 <= |name| - 1 && name[1..][..|lit| - 1] == lit[1..] {
          assert name[..|lit|] == [name[0]] + name[1..][..|lit| - 1];
          assert lit == [lit[0]] + lit[1..];
        }
      }
    }
  }

  /** `*bot`, the pattern of the `/MUTE` help example, matches `evilbot`;
      the mirrored `bot*` does not. */
  lemma BotExamples()
    ensures Matches("evilbot", "*bot")
    ensures !Matches("evilbot", "bot*")
  {
    MatchesSuffix("evilbot", "bot");
    assert "*bot" == ['*'] + "bot";
    MatchesPrefix("evilbot", "bot");
    assert "bot*" == "bot" + ['*'];
    assert "evilbot"[..3] == "evi";
  }
}
