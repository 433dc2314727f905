# Artin representation labels in Dafny

This project models the label layer of the LMFDB's Artin representation
pages (`lmfdb/artin_representations/main.py`). An Artin representation has
a label of the form `dim.cond.grp[tN].orbit.member`, for example
`4.5648.6t13.b.a`. Its Galois orbit has the same label without the member
letters (`4.5648.6t13.b`). Older labels used digits for the last segment:
`NcM` for a representation and `N` for an orbit. Those older labels are
translated through an old-to-new label table. The model covers:

- the four label grammars (`LABEL_RE`, `ORBIT_RE`, `OLD_LABEL_RE`,
  `OLD_ORBIT_RE`), written as predicates over the `.`-segments of a string
  (module `LabelGrammar`, file `label_grammar.dfy`);
- orbit-label stripping (`re.sub(r'\.[a-z]+$', '', label)`) and member-label
  construction (`label + '.' + letters`) (same module);
- `parse_artin_label`, `parse_artin_orbit_label`, `parse_any` and
  `both_labels` over a legacy table given as a sequence of rows (module
  `LabelResolver`, file `label_resolver.dfy`);
- the modular-form friends found by `add_lfunction_friends`, over an
  L-function instance table given as a sequence of records (module
  `LFunctionFriends`, file `lfunction_friends.dfy`);
- the conductor sort key `make_cond_key` (module `ConductorKey`, file
  `conductor_key.dfy`);
- Python's `str.split`, `str.join` and string order, which the rest builds on
  (modules `Strings` and `ConductorKey`), the optional result of a
  database query (module `Wrappers`), and the concatenation of the links
  of each alias in turn (module `Seqs`).

Database queries become input data:
- `artin_old2new_labels.lookup(label)` returns the first row whose old label
  is `label`.
- `artin_old2new_labels.lucky(...)` returns the first row that mentions the
  label as its old or its new label.
- `lfunc_instances.lucky` and `lfunc_instances.search` return matching
  records in sequence order.

A Python exception that ends a parse call is the `Raises` outcome. This
outcome stands for the `ValueError` that every failure path ends in.

On the failure paths the parse functions behave as follows, and the model
does the same:
- A legacy representation label that has no table row does not reach the
  unbound `newlabel` (main.py:79). Instead, `lookup` returns `None`, and
  `None['new']` raises a `TypeError`. The `except` catches it, and the call
  returns `''` when `safe` and raises `ValueError` otherwise.
- The unbound `newlabel` is reached by input that matches neither
  representation grammar. The `except` catches that error too, with the
  same result.
- A row whose new label is empty leaves the `try` normally. The call then
  reaches the final `raise ValueError` whether or not `safe` is set.
- `parse_artin_orbit_label` raises on input that matches neither orbit
  grammar, even when `safe` is set.

## Model

| member | source | states |
|---|---|---|
| LabelGrammar.RepLabelGrammar | lmfdb/artin_representations/main.py:22 | `LABEL_RE` matches a string exactly when the string is five segments joined by dots. The segments are digits, digits, a `\d+(t\d+)?` group, letters and letters. |
| LabelGrammar.OrbitLabelGrammar | lmfdb/artin_representations/main.py:23 | `ORBIT_RE` matches a string exactly when the string is four segments joined by dots. The segments are digits, digits, a `\d+(t\d+)?` group and letters. |
| LabelGrammar.LegacyRepLabelGrammar | lmfdb/artin_representations/main.py:24 | `OLD_LABEL_RE` matches a string exactly when the string is four segments joined by dots. The segments are digits, a `\d+(e\d+)?(_\d+(e\d+)?)*` conductor, a `\d+(t\d+)?` group and `\d+c\d+`. |
| LabelGrammar.LegacyOrbitLabelGrammar | lmfdb/artin_representations/main.py:25 | `OLD_ORBIT_RE` matches a string exactly when the string is four segments joined by dots. The segments are digits, a `\d+(e\d+)?(_\d+(e\d+)?)*` conductor, a `\d+(t\d+)?` group and digits. |
| LabelGrammar.GrammarsDisjoint | lmfdb/artin_representations/main.py:22-25 | No string matches two of the four label grammars. |
| LabelGrammar.FormOf | lmfdb/artin_representations/main.py:22-25 | Every string has exactly one form: current representation, current orbit, legacy representation, legacy orbit, or none. Each form holds exactly when the string matches that grammar. |
| LabelGrammar.RepLabelFromSegments | lmfdb/artin_representations/main.py:22 | Digits, digits, a `\d+(t\d+)?` group and two letter runs joined by dots always match `LABEL_RE`. |
| LabelGrammar.StripMemberSuffix | lmfdb/artin_representations/main.py:278 | The stripped label is either the input unchanged, or a proper prefix whose removed tail is `.` followed by lower-case letters. |
| LabelGrammar.StripDotLetters | lmfdb/artin_representations/main.py:278 | Whenever a string ends in `.` plus lower-case letters, the strip removes exactly that segment. |
| LabelGrammar.MemberLabel | lmfdb/artin_representations/main.py:285 | Appending letters to an orbit label gives a representation label. Its `.`-segments are the orbit's plus the letters, and stripping it gives the orbit back. |
| LabelGrammar.RepLabelDecomposes | lmfdb/artin_representations/main.py:22-23 | Stripping any representation label gives an orbit label. Appending the stripped letters back rebuilds the original label. |
| LabelGrammar.MemberLabelInjective | lmfdb/artin_representations/main.py:285 | Different member letters give different member labels of the same orbit. |
| LabelGrammar.MemberLabels | lmfdb/artin_representations/main.py:284-287 | There is one member label per suffix, in order. Each is a representation label that strips back to the orbit. Labels built from distinct suffixes are distinct. |
| LabelResolver.Lookup | lmfdb/artin_representations/main.py:64 | The row found is a table row with that old label. No row is found exactly when no row has that old label. |
| LabelResolver.ParseArtinLabel | lmfdb/artin_representations/main.py:72-84 | A current label comes back unchanged. A legacy label with a non-empty entry comes back as its new label. Anything returned is the input, the input's table image, or `""` in safe mode. Without `safe`, the call raises exactly when the input is neither current nor upgradable. With `safe`, it raises only for a legacy label whose entry is empty. |
| LabelResolver.ParseArtinOrbitLabel | lmfdb/artin_representations/main.py:58-70 | The same for orbits. With `safe`, the call still raises on input that matches neither orbit grammar. |
| LabelResolver.ParseAny | lmfdb/artin_representations/main.py:94-103 | A current representation label reads as a representation, unchanged. A current orbit label reads as an orbit, unchanged. An upgradable legacy label reads as its new label, with the kind of its grammar. The result is malformed exactly when none of these applies, and then it carries the input unchanged. |
| LabelResolver.FirstMentioning | lmfdb/artin_representations/main.py:87 | The row found mentions the label as its old or its new label. No row is found exactly when no row mentions the label. |
| LabelResolver.BothLabels | lmfdb/artin_representations/main.py:86-91 | The result always contains the label. It is `[label]` when no row mentions the label. Otherwise it is the old and the new label of a row that mentions it. |
| LabelResolver.ParseAnyGivesCurrentLabels | lmfdb/artin_representations/main.py:94-103 | With a well-formed table, a representation reading carries a current representation label, and an orbit reading carries a current orbit label. |
| LabelResolver.ParseAnyIdempotent | lmfdb/artin_representations/main.py:94-103 | With a well-formed table, parsing the label that `parse_any` reports gives the same reading again. |
| LabelResolver.LegacyReadsAsUpgrade | lmfdb/artin_representations/main.py:94-103 | With a well-formed table, an upgradable legacy label reads exactly like its new label, and it is not malformed. |
| LabelResolver.UnknownLegacyIsMalformed | lmfdb/artin_representations/main.py:63-84 | A legacy label with no table row reads as malformed. |
| LabelResolver.SafeModeAsymmetry | lmfdb/artin_representations/main.py:58-84 | On input that matches no grammar, the representation parse in safe mode returns `""`, while the orbit parse in safe mode raises. |
| LabelResolver.BothLabelsOfRow | lmfdb/artin_representations/main.py:86-91 | In a well-formed one-to-one table, the old label and the new label of a row both have that row's two labels as their aliases. |
| LabelResolver.RepReadingExample | lmfdb/artin_representations/main.py:94-97 | `4.5648.6t13.b.a` reads as that representation, whatever the table holds. |
| LabelResolver.OrbitReadingExample | lmfdb/artin_representations/main.py:98-101 | `4.5648.6t13.b` reads as that orbit, whatever the table holds. |
| LabelResolver.MalformedReadingExample | lmfdb/artin_representations/main.py:102-103 | `garbage!!` reads as malformed and unchanged. |
| LFunctionFriends.ArtinInstance | lmfdb/artin_representations/main.py:108 | The record found is an `Artin` instance whose URL is `ArtinRepresentation/` plus the label. No record is found exactly when no such instance exists. |
| LFunctionFriends.CmfFriend | lmfdb/artin_representations/main.py:112-116 | The link's URL always starts with `/`. It is the record's URL unchanged when that starts with `/`, and the record's URL with a `/` in front otherwise. The name is `Modular form ` followed by the URL's modular-form label. |
| LFunctionFriends.CmfLabel | lmfdb/artin_representations/main.py:112-114 | The modular-form label never contains `/`. It is empty when the URL has at most four `/`-segments. |
| LFunctionFriends.MatchingIndices | lmfdb/artin_representations/main.py:111-113 | The positions of the `CMF` records with the given hash and segment count, each once, in increasing order. A position is listed exactly when its record matches. |
| LFunctionFriends.MatchingFriends | lmfdb/artin_representations/main.py:111-116 | There is exactly one link per matching record, in the order of the records. The k-th link is made from the record at the k-th matching position. |
| LFunctionFriends.MatchingFriendsMembers | lmfdb/artin_representations/main.py:111-116 | Every link URL starts with `/`. Every link comes from a `CMF` record with the given hash and segment count. Every such record gives a link. |
| LFunctionFriends.QualifyingIndices | lmfdb/artin_representations/main.py:108-113 | The positions of the records that qualify for one alias, each once, in increasing order. A record qualifies when it is `CMF`, shares the alias's `Artin` hash and has the alias's arity. |
| LFunctionFriends.AliasFriends | lmfdb/artin_representations/main.py:108-116 | For one alias, there is exactly one link per qualifying record, in the order of the records. |
| LFunctionFriends.AliasFriendsSound | lmfdb/artin_representations/main.py:108-116 | Every link of an alias starts with `/` and comes from a record qualifying for that alias. |
| LFunctionFriends.AliasFriendsComplete | lmfdb/artin_representations/main.py:108-116 | Every record qualifying for an alias gives one of its links. |
| LFunctionFriends.AllAliasFriends | lmfdb/artin_representations/main.py:107-116 | No aliases give no links. One alias gives exactly that alias's links. |
| LFunctionFriends.AllAliasFriendsAppend | lmfdb/artin_representations/main.py:107-116 | The links of a list of aliases are the links of its first part followed by the links of its second part. Links repeated across aliases are kept. |
| LFunctionFriends.AddLFunctionFriends | lmfdb/artin_representations/main.py:106-117 | The incoming friends are a prefix of the result. Next come the links of the first alias from `both_labels`, followed by those of the second alias when there is one. |
| LFunctionFriends.AddLFunctionFriendsSound | lmfdb/artin_representations/main.py:106-117 | Every appended link starts with `/`. It comes from a record that qualifies for an alias from `both_labels`. |
| LFunctionFriends.AddLFunctionFriendsComplete | lmfdb/artin_representations/main.py:106-117 | Every record that qualifies for an alias from `both_labels` is linked among the appended friends. |
| LFunctionFriends.CmfLabelIsUrlTail | lmfdb/artin_representations/main.py:112-114 | The modular-form label is the URL after its fourth `/`, with each further `/` replaced by `.`. |
| LFunctionFriends.Arity | lmfdb/artin_representations/main.py:110 | The expected number of URL segments is 8 or 10. |
| LFunctionFriends.CurrentArityFollowsLetters | lmfdb/artin_representations/main.py:110 | A member label of an orbit gets arity 10 when its member letters contain `c`, and 8 otherwise, whatever the orbit is. |
| LFunctionFriends.LegacyArity | lmfdb/artin_representations/main.py:110 | A legacy representation label gets arity 10, and a legacy orbit label gets 8. |
| LFunctionFriends.RepLabelWithOrbitArity | lmfdb/artin_representations/main.py:110 | The current representation label `4.5648.6t13.b.a` is a representation label and gets arity 8. The arity test looks for the letter `c`, not at the label's kind. |
| ConductorKey.Log10Floor | lmfdb/artin_representations/main.py:51-54 | The exponent `e` satisfies `10^e <= max(D, 1) < 10^(e+1)`. |
| ConductorKey.ZeroPad4 | lmfdb/artin_representations/main.py:55 | The padded string is all digits, has length at least four, and has the value of the number. |
| ConductorKey.CondKey | lmfdb/artin_representations/main.py:50-55 | For `D < 1`, the key is `0000` followed by `str(D)`. For a positive `D` of at most 10000 digits, the key is four digits giving the exponent `e` with `10^e <= D < 10^(e+1)`, followed by `str(D)`. |
| ConductorKey.CondKeyOrder | lmfdb/artin_representations/main.py:50-55 | For positive conductors of at most 10000 digits, one key sorts before another as a string exactly when its conductor is smaller. |
| ConductorKey.DecimalValue | lmfdb/artin_representations/main.py:55 | `str(n)` of a non-negative integer is a digit string whose value is `n`. |

## Left out

- `clean_input`: every input is taken as already clean. The page handler
  redirects uncleaned labels before calling `parse_any` (main.py:189-191).
- Python's `\d` also matches non-ASCII decimal digits, and `$` also matches
  before a final newline. Only ASCII digits are modelled, and the newline
  case does not arise for clean input.
- A `None` new label in the legacy table is modelled as the empty string.
  Both are false in the `if newlabel:` test of the parse functions.
- `both_labels` returns the row's values in column order, taken to be old
  then new. Any other columns of the label table are not modelled.
- Database failures and exceptions other than the ones named above are not
  modelled. The order of `lucky` and `search` results is taken to be table
  order.
- `num2letters` lives in `math_classes`, which is not part of this model.
  Member letters are taken as given suffixes.
- The rest of the page's friend list is not modelled: the number field, the
  central character or determinant, the L-function links, and the
  conductor-power threshold. The same holds for properties, titles and
  templates, because they are presentation built on unseen classes
  (`ArtinRepresentation`, the number-field and character objects). Only the
  orbit strip (main.py:278) and member labels (main.py:285) are kept.
- Flask routing, redirects, `flash_error`, `random_representation` and the
  search form (`artin_representation_search`, `ArtinSearchArray`) are web
  plumbing, randomness or thin wrappers over unseen helpers.
- `make_cond_key`: Sage evaluates the logarithm symbolically or in floating
  point. The model uses the exact integer logarithm. Only integer
  conductors are modelled, not strings passed to `ZZ`.
- ConductorKey.CondKey: states nothing about conductors of more than 10000
  digits. There the exponent needs five or more digits and the padding no longer
  keeps keys of equal width.
- LFunctionFriends.Arity: its contract only bounds the result to 8 or 10.
  The rule is stated by LegacyArity for legacy labels and by
  CurrentArityFollowsLetters for current representation labels. For a
  current orbit label the rule is only the definition: 10 when its orbit
  letters contain `c`.
- LFunctionFriends.AddLFunctionFriends: when a row mentioning the label has a
  `None` new label, `both_labels` yields `None` as an alias, and
  `'ArtinRepresentation/' + label` (main.py:108) raises `TypeError`. The
  model writes `None` as `""`, so it looks up the URL `ArtinRepresentation/`
  instead and carries on. Raising is not modelled there.
