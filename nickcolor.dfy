/** The `nickcolor` plugin: a sender's nick is reduced to a canonical key,
    the key's hash picks one of fifteen colours, and the print hook
    re-emits the event with the nick prefixed by that colour's control code,
    passing through any event whose nick already carries a colour code. */
module NickColor {
  import opened Host
  import opened Text

  /** HexChat's colour control code, `\003`. */
  const ColorCode: char := '\U{3}'
  /** Trailing decoration dropped from nicks, `rstrip('`_')`. */
  const Decoration: set<char> := {'`', '_'}
  /** The characters a nick is cut at. */
  const Cuts: set<char> := {'|', '{', '['}
  /** The number of colours hashed into. */
  const PaletteSize: int := 15

  /** `clean_nick`: lower-case, drop trailing `` ` `` and `_`, then keep
      what comes before the first `|`, `{` or `[`. The result holds none of
      them and is a prefix of the lowered, right-stripped nick. */
  function CleanNick(nick: string): (r: string)
    ensures forall i :: 0 <= i < |r| ==> r[i] !in Cuts
    ensures |r| <= |RStrip(Lower(nick), Decoration)|
    ensures r == RStrip(Lower(nick), Decoration)[..|r|]
  {
    var t := RStrip(Lower(nick), Decoration);
    var a := CutAt(t, '|');
    CutAtPrefix(a, '{', t);
    var b := CutAt(a, '{');
    CutAtPrefix(b, '[', t);
    CutAtPrefix(b, '[', a);
    var r := CutAt(b, '[');
    r
  }

  /** The three successive cuts stop at the first of `|`, `{`, `[`, or at
      the end. */
  lemma CleanNickStopsAtFirstCut(nick: string)
    ensures var t, r := RStrip(Lower(nick), Decoration), CleanNick(nick);
            |r| == |t| || t[|r|] in Cuts
  {
    var t := RStrip(Lower(nick), Decoration);
    var a := CutAt(t, '|');
    var b := CutAt(a, '{');
    var r := CutAt(b, '[');
    assert r == CleanNick(nick);
    if |r| < |b| {
      assert t[|r|] == a[|r|] == b[|r|] == '[';
    } else if |b| < |a| {
      assert t[|r|] == a[|b|] == '{';
    } else if |a| < |t| {
      assert t[|r|] == '|';
    }
  }

  /** The canonical key ignores trailing decoration. */
  lemma CleanNickIgnoresDecoration(nick: string, d: string)
    requires forall i :: 0 <= i < |d| ==> d[i] in Decoration
    ensures CleanNick(nick + d) == CleanNick(nick)
  {
    LowerAppend(nick, d);
    assert Lower(d) == d;
    RStripAppend(Lower(nick), d, Decoration);
  }

  /** The canonical key ignores case. */
  lemma CleanNickIgnoresCase(nick: string)
    ensures CleanNick(Lower(nick)) == CleanNick(nick)
  {
    LowerIdempotent(nick);
  }

  lemma CleanNickDecoratedExample()
    ensures CleanNick("Alice`_") == CleanNick("alice")
  {
    assert Lower("Alice`_") == "alice`_";
    assert Lower("alice") == "alice";
    assert RStrip("alice`_", Decoration) == RStrip("alice", Decoration) by {
      assert "alice" + "`_" == "alice`_";
      RStripAppend("alice", "`_", Decoration);
    }
  }

  lemma CleanNickCutExample()
    ensures CleanNick("a_|b") == "a_"
  {
    assert Lower("a_|b") == "a_|b";
    assert RStrip("a_|b", Decoration) == "a_|b";
    assert CutAt("a_|b", '|') == "a_" by {
      assert "a_|b"[1..] == "_|b" && "_|b"[1..] == "|b";
    }
    assert CutAt("a_", '{') == "a_" && CutAt("a_", '[') == "a_";
  }

  lemma CleanNickStripExample()
    ensures CleanNick("a_") == "a"
  {
    assert Lower("a_") == "a_";
    assert RStrip("a_", Decoration) == "a" by {
      assert "a_"[..1] == "a";
    }
    assert CutAt("a", '|') == CutAt("a", '{') == CutAt("a", '[') == "a";
  }

  predicate EndsInDecoration(s: string) {
    |s| > 0 && s[|s| - 1] in Decoration
  }

  /** `clean_nick` is idempotent exactly on the nicks whose key does not end
      in decoration that the cut has uncovered (`a_|b` gives `a_`, which
      gives `a`). */
  lemma CleanNickIdempotentIff(nick: string)
    ensures CleanNick(CleanNick(nick)) == CleanNick(nick) <==> !EndsInDecoration(CleanNick(nick))
  {
    var r := CleanNick(nick);
    var t := RStrip(Lower(nick), Decoration);
    assert forall i :: 0 <= i < |r| ==> r[i] == t[i] == Lower(nick)[i];
    LowerNoUpper(r);
    if !EndsInDecoration(r) {
      assert RStrip(r, Decoration) == r;
      assert CutAt(r, '|') == r && CutAt(r, '{') == r && CutAt(r, '[') == r;
    } else {
      assert |RStrip(r, Decoration)| < |r|;
    }
  }

  lemma CleanNickNotIdempotent()
    ensures CleanNick(CleanNick("a_|b")) != CleanNick("a_|b")
  {
    CleanNickCutExample();
    CleanNickStripExample();
  }

  /** `1 + hash % 15` with Python's `%`, which for a positive divisor is the
      non-negative remainder: a colour in 1..15 congruent to `h + 1`. */
  function ColorIndex(h: int): (i: int)
    ensures 1 <= i <= PaletteSize
    ensures (h - (i - 1)) % PaletteSize == 0
  {
    1 + h % PaletteSize
  }

  /** The number two decimal digits spell. */
  function DigitsValue(d: string): int
    requires |d| == 2
  {
    (d[0] as int - '0' as int) * 10 + (d[1] as int - '0' as int)
  }

  /** `'{:02d}'.format(n)` for the values it is used with. */
  function TwoDigits(n: int): (d: string)
    requires 0 <= n < 100
    ensures |d| == 2 && IsDigit(d[0]) && IsDigit(d[1])
    ensures DigitsValue(d) == n
  {
    [('0' as int + n / 10) as char, ('0' as int + n % 10) as char]
  }

  /** The colour prefix of a stripped nick: the control code and the colour
      index of its canonical key, zero-padded to two digits. */
  function ColorPrefix(nick: string, hash: string -> int): (p: string)
    ensures |p| == 3 && p[0] == ColorCode && IsDigit(p[1]) && IsDigit(p[2])
    ensures 1 <= DigitsValue(p[1..]) <= PaletteSize
    ensures DigitsValue(p[1..]) == ColorIndex(hash(CleanNick(nick)))
  {
    [ColorCode] + TwoDigits(ColorIndex(hash(CleanNick(nick))))
  }

  /** `color_nick`: the stripped nick behind its colour prefix. */
  function ColorNick(nick: string, strip: string -> string, hash: string -> int): (r: string)
    ensures |r| == |strip(nick)| + 3
    ensures r[..3] == ColorPrefix(strip(nick), hash)
    ensures r[3..] == strip(nick)
    ensures r[0] == ColorCode
  {
    ColorPrefix(strip(nick), hash) + strip(nick)
  }

  /** Nicks with the same canonical key get the same colour. */
  lemma SameKeySameColor(a: string, b: string, hash: string -> int)
    requires CleanNick(a) == CleanNick(b)
    ensures ColorPrefix(a, hash) == ColorPrefix(b, hash)
  {
  }

  /** Trailing decoration and case do not change a nick's colour. */
  lemma ColorIgnoresDecorationAndCase(nick: string, d: string, hash: string -> int)
    requires forall i :: 0 <= i < |d| ==> d[i] in Decoration
    ensures ColorPrefix(nick + d, hash) == ColorPrefix(nick, hash)
    ensures ColorPrefix(Lower(nick), hash) == ColorPrefix(nick, hash)
  {
    CleanNickIgnoresDecoration(nick, d);
    CleanNickIgnoresCase(nick);
  }

  predicate StartsWithColor(s: string) {
    |s| > 0 && s[0] == ColorCode
  }

  /** The print hook: a nick that already starts with a colour code is left
      alone and the event passes through; otherwise only `word[0]` is
      recoloured, the event is re-emitted with the original time, and the
      original is suppressed. */
  method OnPrintAttrs(word: array<string>, userdata: string, time: int,
                      strip: string -> string, hash: string -> int)
    returns (eat: Eat, emitted: Option<Emission>)
    requires word.Length >= 1
    modifies word
    ensures StartsWithColor(old(word[0])) ==>
              eat == EatNone && emitted == None && word[..] == old(word[..])
    ensures !StartsWithColor(old(word[0])) ==>
              eat == EatAll &&
              word[..] == old(word[..])[0 := ColorNick(old(word[0]), strip, hash)] &&
              emitted == Some(Emission(userdata, word[..], time))
  {
    if StartsWithColor(word[0]) {
      return EatNone, None;
    }
    word[0] := ColorNick(word[0], strip, hash);
    emitted := Some(Emission(userdata, word[..], time));
    eat := EatAll;
  }

  /** `emit_print` hands the rewritten event back to this hook: the hook
      runs again on a fresh word list built from the emitted arguments, and
      that second call passes through, so an event is recoloured at most
      once. A passed-through event is not re-emitted, so there is no second
      call. */
  method Redispatch(word: array<string>, userdata: string, time: int,
                    strip: string -> string, hash: string -> int)
    returns (first: Eat, second: Option<Eat>)
    requires word.Length >= 1
    modifies word
    ensures StartsWithColor(old(word[0])) ==>
              first == EatNone && second == None && word[..] == old(word[..])
    ensures !StartsWithColor(old(word[0])) ==>
              first == EatAll && second == Some(EatNone) &&
              word[..] == old(word[..])[0 := ColorNick(old(word[0]), strip, hash)]
  {
    var emitted;
    first, emitted := OnPrintAttrs(word, userdata, time, strip, hash);
    if emitted.Some? {
      var args := emitted.value.args;
      var again := new string[|args|](i requires 0 <= i < |args| => args[i]);
      var eat, reemitted := OnPrintAttrs(again, userdata, time, strip, hash);
      second := Some(eat);
    } else {
      second := None;
    }
  }
}
