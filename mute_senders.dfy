/** The `mute_senders` plugin: an ordered list of shell-glob sender patterns
    and an accent colour, kept in step with the host's plugin-preference
    store, and a print hook that re-renders messages from a muted sender as
    one plain line in the accent colour and suppresses the original. */
module MuteSenders {
  import opened Host
  import opened Text
  import Glob

  /** Preference key of the comma-joined pattern list (`__module_name__`
      followed by `_muted`). */
  const MutedKey: string := "mute_senders_muted"
  /** Preference key of the accent colour. */
  const ColorKey: string := "mute_senders_color"
  /** The accent colour before any preference is loaded. */
  const DefaultColor: string := "21"

  /** The `events` table: for each hooked print event, the plain-text
      template of its muted rendering; `{0}`..`{3}` stand for sender, text,
      mode and highlight marker. `\U{1D}` is HexChat's italic control code. */
  const Events: map<string, string> := map[
    "Channel Action" := ActionTemplate,
    "Channel Action Highlight" := ActionTemplate,
    "Channel Message" := MessageTemplate,
    "Channel Msg Hilight" := MessageTemplate
  ]

  const ActionTemplate: string := "\U{1D}\t\U{2022} {0} {1}"
  const MessageTemplate: string := "<{3}{2}{0}>\t{1}"

  // ---------------------------------------------------------------------
  // `str.format` with positional fields

  /** `t.format(*args)` for templates whose only replacement fields are
      single-digit positional ones (`{0}`..`{9}`); any other character is
      copied. */
  function Format(t: string, args: seq<string>): string
    decreases |t|
  {
    if t == [] then []
    else if |t| >= 3 && t[0] == '{' && IsDigit(t[1]) && t[2] == '}'
            && t[1] as int - '0' as int < |args| then
      args[t[1] as int - '0' as int] + Format(t[3..], args)
    else [t[0]] + Format(t[1..], args)
  }

  /** The replacement field `{n}`. */
  function Field(n: nat): (r: string)
    requires n < 10
    ensures |r| == 3 && r[0] == '{' && IsDigit(r[1]) && r[2] == '}'
    ensures r[1] as int - '0' as int == n
  {
    ['{', ('0' as int + n) as char, '}']
  }

  /** Text without `{` is copied unchanged. */
  lemma {:induction false} FormatLiteral(lit: string, rest: string, args: seq<string>)
    requires '{' !in lit
    ensures Format(lit + rest, args) == lit + Format(rest, args)
  {
    if lit == [] {
      assert lit + rest == rest;
    } else {
      var s := lit + rest;
      assert s[0] == lit[0] && s[0] != '{';
      assert s[1..] == lit[1..] + rest;
      assert Format(s, args) == [lit[0]] + Format(lit[1..] + rest, args);
      FormatLiteral(lit[1..], rest, args);
      assert [lit[0]] + (lit[1..] + Format(rest, args)) == lit + Format(rest, args);
    }
  }

  /** A field `{n}` is replaced by the n-th argument. */
  lemma FormatField(n: nat, rest: string, args: seq<string>)
    requires n < 10 && n < |args|
    ensures Format(Field(n) + rest, args) == args[n] + Format(rest, args)
  {
    assert (Field(n) + rest)[3..] == rest;
  }

  /** The action template, read as text and fields. */
  lemma ActionTemplateParts()
    ensures ActionTemplate == "\U{1D}\t\U{2022} " + (Field(0) + (" " + (Field(1) + [])))
  {
    assert Field(0) == "{0}" && Field(1) == "{1}";
  }

  /** The message template, read as text and fields. */
  lemma MessageTemplateParts()
    ensures MessageTemplate == "<" + (Field(3) + (Field(2) + (Field(0) + (">\t" + (Field(1) + [])))))
  {
    assert Field(0) == "{0}" && Field(1) == "{1}" && Field(2) == "{2}" && Field(3) == "{3}";
  }

  lemma ConcatRightNested(a: string, b: string, c: string, d: string, e: string, f: string)
    ensures a + b + c + d + e + f == a + (b + (c + (d + (e + f))))
  {
  }

  /** The muted rendering of an action: italic, a bullet, sender and text. */
  lemma ActionRendering(w: seq<string>)
    requires |w| == 4
    ensures Format(ActionTemplate, w) == "\U{1D}\t\U{2022} " + w[0] + " " + w[1]
  {
    var lead, sp := "\U{1D}\t\U{2022} ", " ";
    var t3 := Field(1) + [];
    var t2 := sp + t3;
    var t1 := Field(0) + t2;
    FormatField(1, [], w);
    assert Format(t3, w) == w[1];
    FormatLiteral(sp, t3, w);
    FormatField(0, t2, w);
    FormatLiteral(lead, t1, w);
    assert Format(lead + t1, w) == lead + (w[0] + (sp + w[1]));
    ActionTemplateParts();
    assert ActionTemplate == lead + t1;
    ConcatRightNested(lead, w[0], sp, w[1], [], []);
  }

  /** The message template after its `<`: highlight marker, mode, sender,
      `>`, a tab and the text. */
  lemma MessageFields(w: seq<string>)
    requires |w| == 4
    ensures Format(Field(3) + (Field(2) + (Field(0) + (">\t" + (Field(1) + [])))), w)
            == w[3] + (w[2] + (w[0] + (">\t" + w[1])))
  {
    var gt := ">\t";
    var t5 := Field(1) + [];
    FormatField(1, [], w);
    assert Format(t5, w) == w[1];
    FormatLiteral(gt, t5, w);
    var t3 := Field(0) + (gt + t5);
    FormatField(0, gt + t5, w);
    FormatField(2, t3, w);
    FormatField(3, Field(2) + t3, w);
  }

  /** The muted rendering of a message: `<`, highlight marker, mode, sender,
      `>`, a tab and the text. */
  lemma MessageRendering(w: seq<string>)
    requires |w| == 4
    ensures Format(MessageTemplate, w) == "<" + w[3] + w[2] + w[0] + ">\t" + w[1]
  {
    var t1 := Field(3) + (Field(2) + (Field(0) + (">\t" + (Field(1) + []))));
    var body := w[3] + (w[2] + (w[0] + (">\t" + w[1])));
    MessageFields(w);
    FormatLiteral("<", t1, w);
    assert Format("<" + t1, w) == "<" + body;
    MessageTemplateParts();
    assert MessageTemplate == "<" + t1;
    ConcatRightNested("<", w[3], w[2], w[0], ">\t", w[1]);
  }

  /** The template of each hooked event. */
  lemma EventTemplates()
    ensures Events.Keys == {"Channel Action", "Channel Action Highlight", "Channel Message", "Channel Msg Hilight"}
    ensures Events["Channel Action"] == Events["Channel Action Highlight"] == ActionTemplate
    ensures Events["Channel Message"] == Events["Channel Msg Hilight"] == MessageTemplate
  {
  }

  // ---------------------------------------------------------------------
  // The pattern list: set semantics and the sort key

  /** The sort key `x.strip('*')`. */
  function Key(pattern: string): string
  {
    Strip(pattern, {'*'})
  }

  /** One `*` at either end of a word that does not start or end with `*`
      does not change the key. */
  lemma KeyIgnoresOneStar(w: string)
    requires w != [] && w[0] != '*' && w[|w| - 1] != '*'
    ensures Key(['*'] + w) == w && Key(w + ['*']) == w
  {
    StripLeadingOne('*', w, {'*'});
    StripTrailingOne(w, '*', {'*'});
  }

  lemma KeyLeadingStar()
    ensures Key("*bot") == "bot"
  {
    var b := "bot";
    assert b[0] == 'b' && b[|b| - 1] == 't';
    assert "*bot" == ['*'] + b;
    KeyIgnoresOneStar(b);
  }

  lemma KeyTrailingStar()
    ensures Key("bot*") == "bot"
  {
    var b := "bot";
    assert b[0] == 'b' && b[|b| - 1] == 't';
    assert "bot*" == b + ['*'];
    KeyIgnoresOneStar(b);
  }

  /** Non-decreasing under `key`, keys compared as Python compares
      strings. */
  predicate SortedBy(s: seq<string>, key: string -> string) {
    forall i, j :: 0 <= i < j < |s| ==> LexLe(key(s[i]), key(s[j]))
  }

  /** The order the pattern list is kept in after `/MUTE`. */
  predicate SortedByKey(s: seq<string>) {
    SortedBy(s, Key)
  }

  /** Every element occurs exactly once. */
  predicate NoDuplicates(s: seq<string>) {
    forall x | x in multiset(s) :: multiset(s)[x] == 1
  }

  /** The list behind `set(s)`, keeping the first occurrence of each
      element. */
  function Dedupe(s: seq<string>): (r: seq<string>)
    ensures NoDuplicates(r)
    ensures forall x :: x in r <==> x in s
  {
    if s == [] then []
    else
      var d := Dedupe(s[..|s| - 1]);
      var x := s[|s| - 1];
      assert s == s[..|s| - 1] + [x];
      if x in d then d else d + [x]
  }

  /** The head of a sorted list has the least key. */
  lemma HeadLeast(s: seq<string>, key: string -> string)
    requires s != [] && SortedBy(s, key)
    ensures forall i :: 0 <= i < |s| ==> LexLe(key(s[0]), key(s[i]))
  {
    LexLeTotal(key(s[0]), key(s[0]));
  }

  /** A key at most the head's is at most every key of a sorted list. */
  lemma BelowHead(k: string, s: seq<string>, key: string -> string)
    requires s != [] && SortedBy(s, key) && LexLe(k, key(s[0]))
    ensures forall i :: 0 <= i < |s| ==> LexLe(k, key(s[i]))
  {
    HeadLeast(s, key);
    forall i | 0 <= i < |s| ensures LexLe(k, key(s[i])) {
      LexLeTrans(k, key(s[0]), key(s[i]));
    }
  }

  /** A lower bound of every key of `s` and of `x` bounds every key of a
      permutation of `s + [x]`. */
  lemma BoundPermuted(k: string, x: string, s: seq<string>, r: seq<string>, key: string -> string)
    requires multiset(r) == multiset(s) + multiset{x}
    requires LexLe(k, key(x))
    requires forall i :: 0 <= i < |s| ==> LexLe(k, key(s[i]))
    ensures forall i :: 0 <= i < |r| ==> LexLe(k, key(r[i]))
  {
    forall i | 0 <= i < |r| ensures LexLe(k, key(r[i])) {
      assert r[i] in multiset(r);
      if r[i] != x {
        assert r[i] in multiset(s);
        var j :| 0 <= j < |s| && s[j] == r[i];
      }
    }
  }

  lemma ConsSorted(h: string, t: seq<string>, key: string -> string)
    requires SortedBy(t, key)
    requires forall i :: 0 <= i < |t| ==> LexLe(key(h), key(t[i]))
    ensures SortedBy([h] + t, key)
  {
    var r := [h] + t;
    forall i, j | 0 <= i < j < |r| ensures LexLe(key(r[i]), key(r[j])) {
      if i == 0 {
        assert r[j] == t[j - 1];
      } else {
        assert r[i] == t[i - 1] && r[j] == t[j - 1];
      }
    }
  }

  /** Inserts `x` after every element whose key is at most its own. */
  function InsertBy(x: string, s: seq<string>, key: string -> string): (r: seq<string>)
    requires SortedBy(s, key)
    ensures SortedBy(r, key)
    ensures multiset(r) == multiset(s) + multiset{x}
  {
    if s == [] then [x]
    else if LexLe(key(s[0]), key(x)) then
      assert s == [s[0]] + s[1..];
      var rest := InsertBy(x, s[1..], key);
      HeadLeast(s, key);
      BoundPermuted(key(s[0]), x, s[1..], rest, key);
      ConsSorted(s[0], rest, key);
      [s[0]] + rest
    else
      LexLeTotal(key(s[0]), key(x));
      BelowHead(key(x), s, key);
      ConsSorted(x, s, key);
      [x] + s
  }

  /** `sorted(s, key=key)`: a stable insertion sort. */
  function SortBy(s: seq<string>, key: string -> string): (r: seq<string>)
    ensures SortedBy(r, key)
    ensures multiset(r) == multiset(s)
  {
    if s == [] then []
    else
      assert s == s[..|s| - 1] + [s[|s| - 1]];
      InsertBy(s[|s| - 1], SortBy(s[..|s| - 1], key), key)
  }

  /** `sorted(set(muted + [pattern]), key=...)`: the old patterns and
      `pattern`, each once, in key order. */
  function AddPattern(muted: seq<string>, pattern: string): (r: seq<string>)
    ensures forall x :: x in r <==> x in muted || x == pattern
    ensures NoDuplicates(r)
    ensures multiset(r)[pattern] == 1
    ensures SortedByKey(r)
  {
    var d := Dedupe(muted + [pattern]);
    var r := SortBy(d, Key);
    assert forall x :: x in r <==> x in multiset(d);
    r
  }

  /** Removing one entry keeps the list sorted. */
  lemma RemovePreservesSorted(s: seq<string>, i: int, key: string -> string)
    requires 0 <= i < |s| && SortedBy(s, key)
    ensures SortedBy(s[..i] + s[i + 1..], key)
  {
    var r := s[..i] + s[i + 1..];
    forall a, b | 0 <= a < b < |r| ensures LexLe(key(r[a]), key(r[b])) {
      var a' := if a < i then a else a + 1;
      var b' := if b < i then b else b + 1;
      assert r[a] == s[a'] && r[b] == s[b'];
    }
  }

  /** Removing one entry keeps the list free of duplicates. */
  lemma RemovePreservesNoDuplicates(s: seq<string>, i: int)
    requires 0 <= i < |s| && NoDuplicates(s)
    ensures NoDuplicates(s[..i] + s[i + 1..])
  {
    var r := s[..i] + s[i + 1..];
    assert s == s[..i] + [s[i]] + s[i + 1..];
    calc {
      multiset(s);
      multiset(s[..i]) + multiset{s[i]} + multiset(s[i + 1..]);
      multiset(r) + multiset{s[i]};
    }
    forall x | x in multiset(r) ensures multiset(r)[x] == 1 {
      assert x in multiset(s);
    }
  }

  // ---------------------------------------------------------------------
  // Persistence

  /** What `load_config` makes of the stored pattern list: an absent or
      empty value is the empty list, anything else is split at commas. */
  function ParseMuted(pref: Option<string>): (r: seq<string>)
    ensures r == [] <==> pref.None? || pref.value == []
    ensures forall i :: 0 <= i < |r| ==> ',' !in r[i]
    ensures Join(r, ',') == if pref.Some? then pref.value else []
  {
    if pref.Some? && pref.value != [] then
      JoinSplit(pref.value, ',');
      Split(pref.value, ',')
    else []
  }

  /** What `load_config` makes of the stored colour: an absent or empty
      value keeps the current colour. */
  function ParseColor(pref: Option<string>, current: string): (r: string)
    ensures pref.None? || pref.value == [] ==> r == current
    ensures pref.Some? && pref.value != [] ==> r == pref.value
  {
    if pref.Some? && pref.value != [] then pref.value else current
  }

  /** The store after `save_config`: both keys overwritten. */
  function SavedPrefs(store: map<string, string>, muted: seq<string>, color: string): (r: map<string, string>)
    ensures r.Keys == store.Keys + {MutedKey, ColorKey}
    ensures forall k :: k in store && k != MutedKey && k != ColorKey ==> r[k] == store[k]
    ensures Get(r, MutedKey) == Some(Join(muted, ','))
    ensures Get(r, ColorKey) == Some(color)
  {
    assert MutedKey[13] != ColorKey[13];
    store[MutedKey := Join(muted, ',')][ColorKey := color]
  }

  /** A non-empty list whose join is empty is `[""]`. */
  lemma {:induction false} JoinEmpty(l: seq<string>)
    requires |l| >= 1 && Join(l, ',') == []
    ensures l == [[]]
  {
  }

  /** Saving then loading gives the pattern list back, unless a pattern
      holds a comma or the list is the single empty pattern. */
  lemma PatternsRoundTrip(l: seq<string>)
    requires forall i :: 0 <= i < |l| ==> ',' !in l[i]
    requires l != [[]]
    ensures ParseMuted(Some(Join(l, ','))) == l
  {
    if |l| >= 1 {
      if Join(l, ',') == [] {
        JoinEmpty(l);
      }
      SplitJoin(l, ',');
    }
  }

  /** The single empty pattern does not survive a save and load. */
  lemma EmptyPatternLost()
    ensures ParseMuted(Some(Join([[]], ','))) == []
  {
  }

  /** Saving then loading restores the list (under the conditions of
      `PatternsRoundTrip`) and a non-empty colour, whatever the store held
      before. */
  lemma PersistRoundTrip(store: map<string, string>, l: seq<string>, color: string, current: string)
    requires forall i :: 0 <= i < |l| ==> ',' !in l[i]
    requires l != [[]] && color != []
    ensures ParseMuted(Get(SavedPrefs(store, l, color), MutedKey)) == l
    ensures ParseColor(Get(SavedPrefs(store, l, color), ColorKey), current) == color
  {
    PatternsRoundTrip(l);
  }

  // ---------------------------------------------------------------------
  // Matching and the print hook

  /** Some pattern matches the whole sender name. */
  predicate AnyMatches(name: string, patterns: seq<string>) {
    exists i :: 0 <= i < |patterns| && Glob.Matches(name, patterns[i])
  }

  lemma MutedBySuffixPattern()
    ensures AnyMatches("evilbot", ["*bot"])
  {
    Glob.BotExamples();
    assert ["*bot"][0] == "*bot";
  }

  lemma NotMutedByPrefixPattern()
    ensures !AnyMatches("evilbot", ["bot*"])
  {
    Glob.BotExamples();
    assert ["bot*"][0] == "bot*";
  }

  /** Matching covers the whole name: trailing text after `bot` defeats
      `*bot`. */
  lemma NotMutedWholeName()
    ensures !AnyMatches("EvilBot99", ["*bot"])
  {
    Glob.MatchesSuffix("EvilBot99", "bot");
    assert "*bot" == ['*'] + "bot";
    assert "EvilBot99"[6..] == "t99";
    assert ["*bot"][0] == "*bot";
  }

  /** Matching is case-sensitive: `*bot` does not match `EvilBot`. */
  lemma NotMutedCaseSensitive()
    ensures !AnyMatches("EvilBot", ["*bot"])
  {
    Glob.MatchesSuffix("EvilBot", "bot");
    assert "*bot" == ['*'] + "bot";
    assert "EvilBot"[4..] == "Bot";
    assert ["*bot"][0] == "*bot";
  }

  /** The four fields the hook works on: the first four words, control
      codes stripped, missing ones empty, extra ones dropped. */
  function PadFields(word: seq<string>, strip: string -> string): (r: seq<string>)
    ensures |r| == 4
    ensures forall i :: 0 <= i < 4 && i < |word| ==> r[i] == strip(word[i])
    ensures forall i :: |word| <= i < 4 ==> r[i] == []
  {
    seq(4, i requires 0 <= i < 4 => if i < |word| then strip(word[i]) else [])
  }

  /** Words past the fourth have no effect. */
  lemma PadFieldsIgnoresExtras(word: seq<string>, extra: seq<string>, strip: string -> string)
    requires |word| >= 4
    ensures PadFields(word + extra, strip) == PadFields(word, strip)
  {
    assert forall i :: 0 <= i < 4 ==> (word + extra)[i] == word[i];
  }

  /** The outcome of `cmd_unmute` for a well-formed invocation. */
  datatype UnmuteResult = Unmuted(nick: string) | IndexInvalid(idx: int)

  datatype Entry = Entry(index: nat, pattern: string)

  /** What `cmd_lmute` shows: the explicit empty message, or the entries in
      order. */
  datatype Listing = NoMutedNicks | Entries(entries: seq<Entry>)

  /** The plugin's module-level state: the pattern list, the accent colour,
      and the host's preference store they are saved to. */
  class Plugin {
    var muted: seq<string>
    var muteColor: string
    var prefs: map<string, string>

    /** Loading the plugin: the module-level defaults, then `load_config()`. */
    constructor (store: map<string, string>)
      ensures prefs == store
      ensures muted == ParseMuted(Get(store, MutedKey))
      ensures muteColor == ParseColor(Get(store, ColorKey), DefaultColor)
    {
      muted := [];
      muteColor := DefaultColor;
      prefs := store;
      new;
      LoadConfig();
    }

    /** `save_config`: write the joined list and the colour. */
    method SaveConfig()
      modifies this`prefs
      ensures prefs == SavedPrefs(old(prefs), muted, muteColor)
    {
      prefs := prefs[MutedKey := Join(muted, ',')][ColorKey := muteColor];
    }

    /** `load_config`: read the list and the colour back. */
    method LoadConfig()
      modifies this`muted, this`muteColor
      ensures muted == ParseMuted(Get(prefs, MutedKey))
      ensures muteColor == ParseColor(Get(prefs, ColorKey), old(muteColor))
    {
      var pref := Get(prefs, MutedKey);
      if pref.Some? && pref.value != [] {
        muted := Split(pref.value, ',');
      } else {
        muted := [];
      }
      pref := Get(prefs, ColorKey);
      if pref.Some? && pref.value != [] {
        muteColor := pref.value;
      }
    }

    /** `/MUTE pattern`: add the pattern, keep each pattern once, sort by
      key, save. */
    method Mute(pattern: string)
      modifies this`muted, this`prefs
      ensures muted == AddPattern(old(muted), pattern)
      ensures forall x :: x in muted <==> x in old(muted) || x == pattern
      ensures NoDuplicates(muted) && multiset(muted)[pattern] == 1
      ensures SortedByKey(muted)
      ensures prefs == SavedPrefs(old(prefs), muted, muteColor)
    {
      muted := AddPattern(muted, pattern);
      SaveConfig();
    }

    /** `/UNMUTE index`: an index out of range changes nothing; otherwise the
      entry is removed, the others keep their order, and the list is saved. */
    method Unmute(idx: int) returns (r: UnmuteResult)
      modifies this`muted, this`prefs
      ensures idx < 0 || idx >= |old(muted)| ==>
                r == IndexInvalid(idx) && muted == old(muted) && prefs == old(prefs)
      ensures 0 <= idx < |old(muted)| ==>
                r == Unmuted(old(muted)[idx]) &&
                muted == old(muted)[..idx] + old(muted)[idx + 1..] &&
                prefs == SavedPrefs(old(prefs), muted, muteColor)
      ensures SortedByKey(old(muted)) ==> SortedByKey(muted)
      ensures NoDuplicates(old(muted)) ==> NoDuplicates(muted)
    {
      if idx < 0 || idx >= |muted| {
        return IndexInvalid(idx);
      }
      var nick := muted[idx];
      if SortedByKey(muted) {
        RemovePreservesSorted(muted, idx, Key);
      }
      if NoDuplicates(muted) {
        RemovePreservesNoDuplicates(muted, idx);
      }
      muted := muted[..idx] + muted[idx + 1..];
      SaveConfig();
      r := Unmuted(nick);
    }

    /** `/LMUTE`: the entries with their indices, or the explicit empty
      message. */
    function ListMuted(): (r: Listing)
      reads this
      ensures r.NoMutedNicks? <==> muted == []
      ensures r.Entries? ==>
                |r.entries| == |muted| &&
                forall i :: 0 <= i < |muted| ==> r.entries[i] == Entry(i, muted[i])
    {
      if muted == [] then NoMutedNicks
      else Entries(seq(|muted|, i requires 0 <= i < |muted| reads this => Entry(i, muted[i])))
    }

    /** The print hook for event `userdata`: if a pattern matches the
      sender, the muted line to print and `EatAll`; otherwise nothing
      printed and `EatNone`. */
    method OnPrintAttrs(word: seq<string>, userdata: string, strip: string -> string)
      returns (eat: Eat, line: Option<string>)
      requires userdata in Events
      ensures var fields := PadFields(word, strip);
              (eat == EatAll <==> AnyMatches(fields[0], muted)) &&
              (eat == EatAll ==> line == Some("\U{3}" + muteColor + Format(Events[userdata], fields))) &&
              (eat == EatNone ==> line == None)
    {
      var fields := PadFields(word, strip);
      for i := 0 to |muted|
        invariant forall j :: 0 <= j < i ==> !Glob.Matches(fields[0], muted[j])
      {
        if Glob.Matches(fields[0], muted[i]) {
          line := Some("\U{3}" + muteColor + Format(Events[userdata], fields));
          return EatAll, line;
        }
      }
      return EatNone, None;
    }
  }
}
