# HexChat mute_senders and nickcolor, modelled in Dafny

This project models two small HexChat plugins and proves properties of them.

**mute_senders** keeps a list of shell-glob sender patterns and an accent colour. Both are saved to the host's plugin-preference store.
- `/MUTE` adds a pattern. The list is kept duplicate-free and sorted by the pattern with its `*` characters stripped from both ends.
- `/UNMUTE` removes an entry by its index.
- `/LMUTE` lists the entries.
- A print hook handles the four channel message and action events. When a pattern matches the whole (control-code-stripped) sender, the hook prints the event as one plain line in the accent colour and suppresses the original.

**nickcolor** reduces a sender's nick to a canonical key: lower-cased, trailing `` ` ``/`_` dropped, cut at the first `|`, `{` or `[`. It hashes the key to a colour 1..15. It then re-emits the event with the nick prefixed by `\003` and the two-digit colour. A nick that already starts with `\003` passes through, which is what stops the plugin from recolouring its own output.

Files:
- `host.dfy` (module `Host`): the hook return values (`EatNone`/`EatAll`), `Option`, a re-emitted event, and preference lookup.
- `text.dfy` (module `Text`): the Python string operations used, namely `lower` (ASCII), `rstrip`/`lstrip`/`strip`, `split(c)[0]`, `join`/`split` on a separator, and Python's string ordering.
- `glob.dfy` (module `Glob`): `fnmatch.fnmatch` with `*`, `?` and literal characters.
- `mute_senders.dfy` (module `MuteSenders`): the event templates, `str.format`, the sort key, de-duplication and sorting, persistence, and the class `Plugin`. `Plugin` holds the module-level state (`muted`, `mute_color`) and the preference store, and has the command and hook methods.
- `nickcolor.dfy` (module `NickColor`): `clean_nick`, the colour index, `color_nick`, and the print hook over the `word` array, which it rewrites in place.

Host calls become parameters or returned values:
- `hexchat.strip` is a parameter `strip: string -> string`.
- Python's `hash` is a parameter `hash: string -> int`. Nothing is assumed about either.
- The preference store is a field `prefs: map<string, string>`; a missing key means `get_pluginpref` found nothing.
- `hexchat.prnt` of the muted line is the hook's returned `line`.
- `emit_print` is the returned `Emission`.

Three facts about the code shape what the model promises:
- **Tie order on `/MUTE`.** The code sorts `set(muted + [p])`, so patterns with equal keys come out in no defined order. `Plugin.Mute` promises the element set, no duplicates and key order.
- **Whole-name, case-sensitive matching.** `EvilBot99` is not muted by `*bot`, because matching covers the whole name (`MuteSenders.NotMutedWholeName`). `EvilBot` is not muted by `*bot` either, because matching is case-sensitive (`MuteSenders.NotMutedCaseSensitive`).
- **Colour stability.** Python's `hash` of a string is randomised per process, so a nick's colour is stable only within one run. `NickColor.SameKeySameColor` is stated for one fixed hash function.

## Model

| member | source | states |
|---|---|---|
| Text.Lower | nickcolor.py:35 | `nick.lower()`: same length, no upper-case letter is left, other characters are unchanged, and each upper-case letter becomes its lower-case letter |
| Text.LowerIdempotent | nickcolor.py:35 | lowering twice is the same as lowering once |
| Text.RStrip | nickcolor.py:35 | `rstrip(cs)` keeps the longest prefix that does not end in `cs`; every character cut off is in `cs` |
| Text.LStrip | mute_senders.py:71 | `lstrip(cs)` keeps the longest suffix that does not start with a character of `cs`; every character cut off is in `cs` |
| Text.Strip | mute_senders.py:71 | `strip('*')` is the suffix of the right-stripped text whose cut-off front is all stripped characters; it neither starts nor ends with a stripped character |
| Text.StripSlice | mute_senders.py:71 | `strip('*')` keeps a contiguous slice of the input; everything in front of it and everything after it is a stripped character |
| Text.RStripAppend | nickcolor.py:35 | appending stripped characters does not change what `rstrip` keeps |
| Text.CutAt | nickcolor.py:35 | `split(c)[0]` is a prefix without `c`, and it stops at the end of the input or at the first `c` |
| Text.Join | mute_senders.py:43 | `','.join(l)`; it has no contract of its own, and `Text.JoinSplit`, `Text.SplitJoin` and `MuteSenders.PatternsRoundTrip` state what it means |
| Text.Split | mute_senders.py:53 | `split(',')` always has at least one piece, and no piece contains the separator |
| Text.JoinSplit | mute_senders.py:43-53 | joining the pieces of a split gives back the original text |
| Text.SplitJoin | mute_senders.py:43-53 | splitting a join gives back the list, when the list is non-empty and no element contains the separator |
| Text.LexLe | mute_senders.py:71 | Python's `<=` on the sort keys `sorted` compares: code point by code point, a proper prefix before its extensions; it has no contract of its own, and the three lemmas below state its order properties |
| Text.LexLeTotal | mute_senders.py:71 | Python's string order compares any two strings |
| Text.LexLeTrans | mute_senders.py:71 | Python's string order is transitive |
| Text.LexLeAntisymmetric | mute_senders.py:71 | two strings that are each at most the other are equal |
| Glob.Matches | mute_senders.py:129 | `fnmatch.fnmatch(name, pat)` on the whole name; it has no contract of its own, and the Glob lemmas below state what it means |
| Glob.LiteralMatchesItself | mute_senders.py:129 | a pattern without wildcards matches exactly the one name equal to it |
| Glob.StarFreeLength | mute_senders.py:129 | a pattern without `*` matches only names of its own length |
| Glob.LeadingStar | mute_senders.py:129 | a leading `*` matches a name iff the rest of the pattern matches some suffix of that name |
| Glob.StarMatchesAll | mute_senders.py:129 | `*` matches every name |
| Glob.StarFreeMatches | mute_senders.py:129 | a pattern without `*` matches exactly the names of its own length that agree with it wherever it has no `?`: each `?` matches any one character |
| Glob.MatchesSuffix | mute_senders.py:129 | `*lit` matches exactly the names ending in `lit` |
| Glob.MatchesPrefix | mute_senders.py:129 | `lit*` matches exactly the names starting with `lit` |
| Glob.BotExamples | mute_senders.py:129 | `*bot`, the pattern of the `/MUTE` help example (mute_senders.py line 63), matches `evilbot`; the mirrored `bot*` does not |
| MuteSenders.Format | mute_senders.py:131 | `template.format(*word)` for positional single-digit fields; it has no contract of its own, and `FormatLiteral`, `FormatField`, `ActionRendering` and `MessageRendering` state what it produces |
| MuteSenders.FormatLiteral | mute_senders.py:131 | template text without `{` is copied into the output unchanged |
| MuteSenders.FormatField | mute_senders.py:131 | a field `{n}` is replaced by the n-th argument |
| MuteSenders.ActionRendering | mute_senders.py:32-33 | the action template renders as italic, tab, bullet, space, sender, space, text |
| MuteSenders.MessageRendering | mute_senders.py:34-35 | the message template renders as `<` + highlight marker + mode + sender + `>`, a tab, then the text |
| MuteSenders.EventTemplates | mute_senders.py:31-36 | the table has exactly the four event names as keys; both action events share one template and both message events share the other |
| MuteSenders.Key | mute_senders.py:71 | the sort key `x.strip('*')`; `Text.Strip` and `Text.StripSlice` state what it keeps, and `KeyLeadingStar` and `KeyTrailingStar` give its values on the documented patterns |
| MuteSenders.KeyLeadingStar | mute_senders.py:71 | `*bot` has the sort key `bot` |
| MuteSenders.KeyTrailingStar | mute_senders.py:71 | `bot*` has the sort key `bot` |
| MuteSenders.Dedupe | mute_senders.py:71 | `set(...)`: no duplicates, and the same elements as the input |
| MuteSenders.InsertBy | mute_senders.py:71 | inserting into a list sorted by key gives a list sorted by key that is a permutation of the old list plus the new element |
| MuteSenders.SortBy | mute_senders.py:71 | `sorted(..., key=...)`: the result is sorted by key and is a permutation of the input |
| MuteSenders.AddPattern | mute_senders.py:71 | the new list holds exactly the old patterns plus the new one, with no duplicates; the new pattern occurs exactly once; the list is sorted by key |
| MuteSenders.RemovePreservesSorted | mute_senders.py:92 | deleting one entry keeps a list sorted by key |
| MuteSenders.RemovePreservesNoDuplicates | mute_senders.py:92 | deleting one entry keeps a list free of duplicates |
| Host.Get | mute_senders.py:51-56 | `get_pluginpref(key)` gives the stored value exactly when the key is stored, and nothing otherwise |
| MuteSenders.ParseMuted | mute_senders.py:51-55 | an absent or empty preference loads as `[]` and any other value loads as a non-empty list; no loaded pattern contains a comma; joining the loaded list gives back the stored text |
| MuteSenders.ParseColor | mute_senders.py:56-58 | an absent or empty colour preference keeps the current colour; any other value replaces it |
| MuteSenders.SavedPrefs | mute_senders.py:39-44 | saving overwrites exactly the two keys, with the comma-joined list and the colour; every other key is untouched |
| MuteSenders.PatternsRoundTrip | mute_senders.py:43-55 | a list with no comma in any pattern, and other than `[""]`, loads back as the list that was saved |
| MuteSenders.EmptyPatternLost | mute_senders.py:43-55 | the list `[""]` loads back as `[]` |
| MuteSenders.PersistRoundTrip | mute_senders.py:39-58 | after `save_config`, `load_config` restores the pattern list (under the conditions above) and a non-empty colour, whatever else the store held |
| MuteSenders.MutedBySuffixPattern | mute_senders.py:128-129 | the sender `evilbot` is muted by the list `[*bot]` |
| MuteSenders.NotMutedByPrefixPattern | mute_senders.py:128-129 | the sender `evilbot` is not muted by the list `[bot*]` |
| MuteSenders.NotMutedWholeName | mute_senders.py:128-129 | the sender `EvilBot99` is not muted by the list `[*bot]`: matching covers the whole name |
| MuteSenders.NotMutedCaseSensitive | mute_senders.py:128-129 | the sender `EvilBot` is not muted by the list `[*bot]`: matching is case-sensitive |
| MuteSenders.AnyMatches | mute_senders.py:128-132 | the loop's verdict: some pattern of the list matches the whole sender; `Plugin.OnPrintAttrs` proves its loop computes exactly this |
| MuteSenders.PadFields | mute_senders.py:127 | the hook always works on exactly four fields: present words are control-stripped, missing ones are empty |
| MuteSenders.PadFieldsIgnoresExtras | mute_senders.py:127 | words past the fourth do not affect the fields |
| MuteSenders.Plugin.constructor | mute_senders.py:27-28 | at start-up the defaults (`[]`, colour `21`) are overridden by whatever `load_config` finds in the store |
| MuteSenders.Plugin.SaveConfig | mute_senders.py:39-44 | the store gets the joined list and the colour under the two plugin keys |
| MuteSenders.Plugin.LoadConfig | mute_senders.py:47-58 | the list and colour are set as `ParseMuted` and `ParseColor` describe: an empty or absent colour leaves the colour unchanged |
| MuteSenders.Plugin.Mute | mute_senders.py:71-72 | after `/MUTE p` the list is `AddPattern(old list, p)`: it holds the old patterns plus `p`, each exactly once, sorted by key; the colour is unchanged; the store is saved |
| MuteSenders.Plugin.Unmute | mute_senders.py:87-94 | an index `< 0` or `>= len` reports the index and changes nothing, including the store. Otherwise it returns the old `muted[idx]`, the list becomes `old[..idx] + old[idx+1..]`, and the store is saved. Sortedness and the absence of duplicates are preserved |
| MuteSenders.Plugin.ListMuted | mute_senders.py:105-111 | an empty list gives the explicit "no muted nicks" result; otherwise every entry appears with its index, in order |
| MuteSenders.Plugin.OnPrintAttrs | mute_senders.py:127-133 | the hook suppresses the event iff some pattern glob-matches the whole sender field. It then prints `\003` + colour + the kind's template with the four fields filled in; otherwise it prints nothing and passes the event through |
| NickColor.CleanNick | nickcolor.py:34-35 | `clean_nick` contains no vertical bar, `{` or `[` and is a prefix of the lowered, right-stripped nick |
| NickColor.CleanNickStopsAtFirstCut | nickcolor.py:35 | the three cuts together stop at the first vertical bar, `{` or `[`, or at the end |
| NickColor.CleanNickIgnoresDecoration | nickcolor.py:35 | appending `` ` `` and `_` does not change the canonical key |
| NickColor.CleanNickIgnoresCase | nickcolor.py:35 | lower-casing first does not change the canonical key |
| NickColor.CleanNickDecoratedExample | nickcolor.py:35 | ``clean_nick("Alice`_") == clean_nick("alice")`` |
| NickColor.CleanNickCutExample | nickcolor.py:35 | `clean_nick` of `a_`, a vertical bar, then `b` is `a_` |
| NickColor.CleanNickStripExample | nickcolor.py:35 | `clean_nick("a_") == "a"` |
| NickColor.CleanNickIdempotentIff | nickcolor.py:35 | cleaning twice equals cleaning once iff the cleaned nick does not end in `` ` `` or `_` |
| NickColor.CleanNickNotIdempotent | nickcolor.py:35 | `clean_nick` is not idempotent in general: `a_`, a vertical bar, then `b` is a counterexample |
| NickColor.ColorIndex | nickcolor.py:40 | `1 + h % 15` with Python's non-negative modulo lies in 1..15 and is congruent to `h + 1` modulo 15, for every integer, negative ones included |
| NickColor.TwoDigits | nickcolor.py:40 | `{:02d}` gives two decimal digits that read back as the number |
| NickColor.ColorPrefix | nickcolor.py:40 | the prefix is `\003` followed by two digits, reading back as the colour index (1..15) of the nick's canonical key |
| NickColor.ColorNick | nickcolor.py:38-40 | `color_nick` is three characters longer than the stripped nick: the colour prefix, then the stripped nick; it starts with `\003` |
| NickColor.SameKeySameColor | nickcolor.py:38-40 | nicks with the same canonical key get the same colour prefix, for a fixed hash |
| NickColor.ColorIgnoresDecorationAndCase | nickcolor.py:38-40 | trailing `` ` ``/`_` and letter case do not change a nick's colour |
| NickColor.StartsWithColor | nickcolor.py:44 | `s.startswith('\003')`: non-empty with `\003` first |
| NickColor.OnPrintAttrs | nickcolor.py:43-48 | if `word[0]` starts with `\003`, the hook passes through and `word` is untouched. Otherwise only `word[0]` is replaced by `color_nick(word[0])`; the event is re-emitted with the new words and the original time, and the original is suppressed |
| NickColor.Redispatch | nickcolor.py:44-47 | `emit_print` re-enters the hook on a fresh word list built from the emitted arguments; that second call passes through, so each event is recoloured at most once. A passed-through event is not re-emitted, so there is no second call. The caller's `word` ends as the first call left it |

## Left out

- The host API is left out: `hexchat.command` (help on a malformed command), `hook_command` and `hook_print_attrs` registration, and hook priorities. These are host dispatch. The two-plugin chain is left out too; only the colourizer's re-entry is modelled.
- `hexchat.strip` is a parameter, so nothing is proved about how the two plugins compose: whether the mute hook's stripping removes the colourizer's prefix.
- The hook return values are reduced to `EatNone` and `EatAll`, the only two these plugins return. `cmd_unmute`'s bare `return` on a wrong argument count is not modelled.
- Command-line parsing is not modelled: the argument-count checks, and `int(word[1])` raising on text that is not a number. `Unmute` takes the parsed integer.
- Display text is not modelled: the `prnt` confirmations ("will be muted.", "unmuted.", "Index … invalid"), the "Muted nicks:" heading and the `{:<3}` column formatting. `Unmute` and `ListMuted` return what these messages report.
- The host's preference store can hand back a number instead of a string for a numeric value. The model treats every stored value as a string.
- Python's `hash` is a parameter, so colours are not claimed stable across runs.
- `Text.Lower` lowers ASCII letters only, not the full Unicode `str.lower`.
- `Glob.Matches` matches case-sensitively, as on POSIX, where `os.path.normcase` changes nothing. Bracket classes `[seq]`/`[!seq]` are not supported; `[` is matched as a literal character.
- `MuteSenders.Format` handles only single-digit positional fields `{0}`..`{9}` whose index is below the number of arguments, the only kind the two fixed templates use. Every other brace is copied as text, which differs from Python's `str.format`: it turns `{{` and `}}` into one brace, fills `{}` by automatic numbering, applies conversions and format specs such as `{0!r}` and `{0:>3}`, substitutes multi-digit indices such as `{12}`, and raises an error on a lone brace, a named field, or an index past the arguments (a single-digit one included). The two templates contain none of these forms.
- `NickColor.OnPrintAttrs` and `NickColor.Redispatch` are modelled only for a non-empty word list; on an empty one the source raises `IndexError` at `word[0]`.
- `NickColor.TwoDigits` covers only 0..99, the numbers `{:02d}` is used with here (1..15).
- `MuteSenders.Plugin.Mute`: the order among patterns with equal keys is deliberately left unspecified, because it follows the iteration order of a Python `set`. The model's implementation keeps first occurrences and sorts stably: one of the orders the source can produce.
