# Emoji library model

A Dafny model of `ts/components/emoji/lib.ts` from Signal Desktop. This is the module behind the emoji picker, emoji search, short-name conversion (`:smile:` to 😄) and the large-emoji rendering of short messages.

When the module loads, it does three things with the `emoji-datasource` records:

- It keeps the records that have an Apple image. It moves the "People & Body" records 1000 places down the sort order.
- It groups the records into picker categories, each sorted by `sort_order`.
- It builds three tables in one pass:
  - `dataByShortName`: `keyBy` on `short_name`, then every alias of every record written over it, in dataset order.
  - `imageByEmoji`: emoji to image path.
  - `dataByEmoji`: emoji to record.

  Both reverse tables are keyed by the emoji that `convertShortName` produces, once for the record itself and once for each skin-tone variation.

The lookups read those tables:

- `getEmojiData` / `getImagePath` find a record or one of its variations, with a fallback to the "tone-tone" key used by two-person emoji.
- `convertShortNameToData` / `convertShortName` spread a variation over the record and render its `unified` code points. They have no such fallback.
- `isShortName` tests the short-name set.
- `emojiToImage` / `emojiToData` read the reverse tables.

`getEmojiCount` and `getSizeClass` count the emoji in a message. They choose a size class when the message is one to five emoji and nothing but white space. `search` cuts the query to 32 characters, hands it to the fuzzy matcher and keeps the first `count` results.

Modules:

- `Wrappers`: `Option`, and `Result` with the JavaScript exceptions that occur here (`RangeError`, `TypeError`).
- `EmojiTypes`: the record and variation types, `skinTones`, tone truthiness and the property key a tone selects, and `makeImagePath`.
- `JsText`: JavaScript white space, `trim`, `split` / `join`.
- `Unified`: `parseInt(s, 16)` as section 19.2.5 of ECMA-262 defines it, `String.fromCodePoint`, `unifiedToEmoji`, and the dataset's own hexadecimal notation, with the round trip through it.
- `Dataset`: the filter and the sort-order adjustment.
- `Categories`: `dataByCategory`, meaning the category callback, `groupBy` and the stable `sortBy`.
- `Lookup`: the four short-name lookups, over the table as a parameter.
- `IndexSpec`: the tables the load builds, as functions of the dataset, and what they hold afterwards.
- `Index`: class `EmojiIndex`, holding the module's mutable tables. Its load loop updates them in place and is proved to produce the `IndexSpec` state.
- `SizeClasses`: a `RegExp` object with `lastIndex`, the `exec` loop of `getEmojiCount`, and `getSizeClass`.
- `Search`: `search`.

The loop calls `convertShortName` on `dataByShortName` while that table is still being extended. The model keeps this: each record's emoji is computed on the table as it stands after that record's aliases are written.

`getEmojiData` falls back to the doubled key and `convertShortNameToData` does not. `Lookup.ResolutionsAgree` states where the two agree and where they part. The model keeps each as written.

## Model

| member | source | states |
|---|---|---|
| EmojiTypes.ToneKeyOf | ts/components/emoji/lib.ts:191 | a number 1..5 selects `skinTones[n-1]`; any other number selects the key "undefined"; a string selects itself |
| EmojiTypes.FindVariation | ts/components/emoji/lib.ts:193-194 | a variation is found exactly when an entry has the key, and it is that entry's variation |
| EmojiTypes.MakeImagePath | ts/components/emoji/lib.ts:99-101 | the path has the root, then the Apple 64px directory, then the image name |
| EmojiTypes.MakeImagePathInjective | ts/components/emoji/lib.ts:99-101 | different image names give different paths |
| JsText.TrimStartDropsWhiteSpace | ts/components/emoji/lib.ts:318 | trimming the start keeps a suffix, removes only white space, and stops at the first other character |
| JsText.TrimEndDropsWhiteSpace | ts/components/emoji/lib.ts:318 | trimming the end keeps a prefix, removes only white space, and stops at the last other character |
| JsText.TrimNonEmptyIff | ts/components/emoji/lib.ts:318 | `s.trim().length > 0` exactly when `s` has a character that is not white space |
| JsText.Trim | ts/components/emoji/lib.ts:318 | definition; characterised by `TrimStartDropsWhiteSpace`, `TrimEndDropsWhiteSpace` and `TrimNonEmptyIff` |
| JsText.Split | ts/components/emoji/lib.ts:247 | `split` gives at least one piece and no piece holds the separator |
| JsText.JoinSplit | ts/components/emoji/lib.ts:246-249 | joining the pieces of a split restores the string |
| JsText.SplitJoin | ts/components/emoji/lib.ts:246-249 | splitting a join of pieces without separators restores the pieces |
| Unified.HexPrefixIsLongest | ts/components/emoji/lib.ts:248 | the digits `parseInt` reads are all hexadecimal and are followed by no hexadecimal digit |
| Unified.ParseInt16 | ts/components/emoji/lib.ts:248 | `parseInt(s, 16)` is NaN exactly when no hexadecimal digit follows the white space, sign and "0x" |
| Unified.ParseInt16OfDigits | ts/components/emoji/lib.ts:248 | a non-empty string of hexadecimal digits parses to its value |
| Unified.FromCodePoint | ts/components/emoji/lib.ts:248 | `String.fromCodePoint` succeeds exactly on 0..0x10FFFF, and NaN throws RangeError |
| Unified.PieceCodePoint | ts/components/emoji/lib.ts:248 | a converted piece is the value `parseInt` reads from it; any failure is a RangeError |
| Unified.Sequence | ts/components/emoji/lib.ts:248 | a `map` with a throwing callback succeeds exactly when every call does, and otherwise throws the first exception |
| Unified.ConvertPieces | ts/components/emoji/lib.ts:247-248 | the conversion succeeds exactly when every piece is a code point, and gives one code point per piece, in order |
| Unified.UnifiedToEmoji | ts/components/emoji/lib.ts:245-250 | one code point per '-'-separated piece, each the piece's hexadecimal value; never empty; RangeError otherwise |
| Unified.CodePointHexParses | ts/components/emoji/lib.ts:248 | a code point written in four or more hex digits parses back to itself |
| Unified.ConvertPiecesOfValues | ts/components/emoji/lib.ts:247-248 | pieces that each parse to a code point convert to exactly those code points |
| Unified.UnifiedRoundTrip | ts/components/emoji/lib.ts:245-250 | writing an emoji in the dataset's notation and converting it back gives the emoji |
| Unified.ModifierHex | ts/components/emoji/lib.ts:26 | each entry of `skinTones` is a modifier code point written in hex |
| Unified.SkinTonesAreModifiers | ts/components/emoji/lib.ts:26 | `skinTones[k]` converts to the single code point U+1F3FB + k |
| Dataset.Adjust | ts/components/emoji/lib.ts:88-90 | "People & Body" records move 1000 down the sort order; nothing else about a record changes |
| Dataset.KeepApple | ts/components/emoji/lib.ts:80 | definition; characterised by `KeepAppleOnly` and `KeepApplePrefix` |
| Dataset.Normalise | ts/components/emoji/lib.ts:79-91 | definition; characterised by `NormaliseKeepsApple`, `NormalisePlacesKept`, `NormaliseLength` and `NormaliseFromRaw` |
| Dataset.KeepAppleOnly | ts/components/emoji/lib.ts:80 | the filter keeps only dataset records, and only those with an Apple image |
| Dataset.KeepApplePrefix | ts/components/emoji/lib.ts:80 | filtering a longer prefix extends the filtered shorter one |
| Dataset.NormaliseKeepsApple | ts/components/emoji/lib.ts:79-91 | every record of `data` has an Apple image |
| Dataset.NormalisePlacesKept | ts/components/emoji/lib.ts:79-91 | every raw record with an Apple image appears, adjusted, after the kept records before it |
| Dataset.NormaliseLength | ts/components/emoji/lib.ts:79-91 | `data` has exactly as many records as the raw dataset has with an Apple image |
| Dataset.NormaliseFromRaw | ts/components/emoji/lib.ts:79-91 | every record of `data` is an adjusted raw record with an Apple image |
| Categories.CategoryKeyIsTable | ts/components/emoji/lib.ts:142-180 | the callback maps the nine named categories as listed and every other category to "misc", always to a picker key |
| Categories.CategoryKey | ts/components/emoji/lib.ts:142-180 | definition; characterised by `CategoryKeyIsTable`, `EmojiKeyCategories` and `MiscKeyCategories` |
| Categories.EmojiKeyCategories | ts/components/emoji/lib.ts:166-172 | "emoji" collects exactly "Smileys & Emotion" and "People & Body" |
| Categories.MiscKeyCategories | ts/components/emoji/lib.ts:179 | "misc" collects exactly the categories the callback does not name |
| Categories.GroupMembers | ts/components/emoji/lib.ts:142 | a group holds exactly the records whose category maps to its key |
| Categories.GroupCount | ts/components/emoji/lib.ts:142 | a group holds each record of its key exactly as often as the dataset does, and no other record |
| Categories.Group | ts/components/emoji/lib.ts:142 | definition; characterised by `GroupMembers` and `GroupCount` |
| Categories.StepSortedIsSorted | ts/components/emoji/lib.ts:181 | order between neighbours gives order between any two records |
| Categories.InsertAdds | ts/components/emoji/lib.ts:181 | insertion adds exactly the one record |
| Categories.InsertSorted | ts/components/emoji/lib.ts:181 | insertion into a sorted group keeps it sorted |
| Categories.SortByOrderSorts | ts/components/emoji/lib.ts:181 | `sortBy(arr, 'sort_order')` is sorted and a permutation of `arr` |
| Categories.WithOrderCons | ts/components/emoji/lib.ts:181 | the records of one sort order in a sequence with a record in front |
| Categories.InsertStable | ts/components/emoji/lib.ts:181 | insertion places the record after none of the records with its sort order |
| Categories.SortByOrderStable | ts/components/emoji/lib.ts:181 | records with equal sort order keep their dataset order |
| Categories.SortByOrder | ts/components/emoji/lib.ts:181 | definition; characterised by `SortByOrderSorts` and `SortByOrderStable` |
| Categories.DataByCategoryGroups | ts/components/emoji/lib.ts:141-182 | a key is present exactly when a record has it; its group holds exactly those records, as often as `Group` does, sorted by sort order, equal sort orders in dataset order |
| Categories.DataByCategory | ts/components/emoji/lib.ts:141-182 | definition; characterised by `DataByCategoryGroups` |
| Categories.DataByCategoryKeys | ts/components/emoji/lib.ts:141-182 | a key has a group exactly when some record's category maps to it, and the group is the sorted `Group` |
| Categories.SortedGroup | ts/components/emoji/lib.ts:181 | a sorted group is sorted, holds the group's records as often as the group does, and is stable |
| Categories.EveryRecordGrouped | ts/components/emoji/lib.ts:141-182 | every record lies in the group of its own category's key |
| Lookup.GetEmojiData | ts/components/emoji/lib.ts:184-205 | falsy tone or no variations gives the record; else the tone's variation, else the doubled key's, else undefined; unknown name with truthy tone throws |
| Lookup.GetImagePath | ts/components/emoji/lib.ts:207-214 | the image path of what `getEmojiData` finds; reading `image` of undefined throws, and every exception is a TypeError |
| Lookup.Merge | ts/components/emoji/lib.ts:264-267 | the spread takes every variation field from the variation and every other field from the record |
| Lookup.MergeDetermined | ts/components/emoji/lib.ts:264-267 | those two facts leave no field of the spread open |
| Lookup.MergeTwice | ts/components/emoji/lib.ts:264-267 | spreading a second variation keeps only the second |
| Lookup.ConvertShortNameToData | ts/components/emoji/lib.ts:252-275 | undefined exactly for an unknown name; the spread when the tone is truthy and its key is present; the record otherwise |
| Lookup.ConvertShortName | ts/components/emoji/lib.ts:277-288 | the empty string exactly for an unknown name; otherwise `unifiedToEmoji` of the resolved record |
| Lookup.ResolutionsAgree | ts/components/emoji/lib.ts:190-201 | the two lookups agree on a variation stored under the tone's key; with only the doubled key, one finds it and the other gives the record |
| Lookup.ToneZero | ts/components/emoji/lib.ts:254 | the default tone 0 is falsy: the record itself |
| Lookup.NumericTones | ts/components/emoji/lib.ts:191 | tone n in 1..5 resolves as the key `skinTones[n-1]` |
| IndexSpec.LastNamed | ts/components/emoji/lib.ts:137 | the last record with the given `short_name`, and none when no record has it |
| IndexSpec.KeyByLookup | ts/components/emoji/lib.ts:137 | `keyBy` has a name exactly when a record has it, holding the last such record |
| IndexSpec.KeyBy | ts/components/emoji/lib.ts:137 | definition; characterised by `KeyByLookup` and `KeyByFromData` |
| IndexSpec.AliasListMembers | ts/components/emoji/lib.ts:238 | `flatMap(data, 'short_names')` holds exactly the aliases of the records |
| IndexSpec.CompactMembers | ts/components/emoji/lib.ts:238 | `compact` keeps exactly the non-empty names |
| IndexSpec.ShortNameSetMembers | ts/components/emoji/lib.ts:236-239 | the set holds every `short_name` and every non-empty alias, and nothing else |
| IndexSpec.ShortNameSet | ts/components/emoji/lib.ts:236-239 | definition; characterised by `ShortNameSetMembers` |
| IndexSpec.SetAliasesOverride | ts/components/emoji/lib.ts:345-349 | writing the aliases one by one is the table overridden on those names |
| IndexSpec.LastListing | ts/components/emoji/lib.ts:345-349 | the last record listing a name among its aliases, and none when no record does |
| IndexSpec.AliasFoldLookup | ts/components/emoji/lib.ts:342-349 | after every alias is written, an alias holds the last record listing it and any other name keeps its entry |
| IndexSpec.IndexVariationsKeepsNames | ts/components/emoji/lib.ts:354-360 | the variation loop leaves `dataByShortName` alone |
| IndexSpec.IndexAllNames | ts/components/emoji/lib.ts:342-361 | a completed load leaves `dataByShortName` as the `keyBy` table with every alias written over it |
| IndexSpec.ShortNameTable | ts/components/emoji/lib.ts:342-361 | after the load, an alias holds its last record; another name holds the last record with that `short_name`, if any |
| IndexSpec.ShortNameTableKeys | ts/components/emoji/lib.ts:236-239 | the table's names are the set's names plus the empty string when a record lists it |
| IndexSpec.IndexVariationsPaired | ts/components/emoji/lib.ts:354-360 | the variation loop keeps both reverse tables on the same keys, each holding a dataset record and one of its images |
| IndexSpec.IndexRecordPaired | ts/components/emoji/lib.ts:342-361 | one turn of the loop keeps that pairing and adds keys only |
| IndexSpec.IndexAllPaired | ts/components/emoji/lib.ts:342-361 | the whole loop keeps that pairing |
| IndexSpec.ReverseTablesPaired | ts/components/emoji/lib.ts:351-358 | after the load, `imageByEmoji` and `dataByEmoji` share their keys; each key holds a dataset record and its own image or one of its variations' |
| IndexSpec.FindUniqueTone | ts/components/emoji/lib.ts:265 | a variation whose key no other entry of its record has is the one that key looks up |
| IndexSpec.RecordKeepsKeyed | ts/components/emoji/lib.ts:351-352 | storing a record and image under their own emoji keeps every entry under its own emoji |
| IndexSpec.OwnEmoji | ts/components/emoji/lib.ts:351-352 | once a record's aliases are written, its short name with the default tone converts to its own `unified` |
| IndexSpec.VariationsKeyed | ts/components/emoji/lib.ts:354-360 | on a record that lists its short name and has distinct non-empty tone keys, each variation's image and the record are stored under that variation's emoji |
| IndexSpec.RecordKeyed | ts/components/emoji/lib.ts:342-360 | one turn stores the record with its own image under its own emoji, and each variation's image under the variation's emoji |
| IndexSpec.AllKeyed | ts/components/emoji/lib.ts:342-361 | the whole loop over regular records keeps every entry under its own emoji |
| IndexSpec.LoadKeyed | ts/components/emoji/lib.ts:342-361 | after a completed load of a regular dataset, every emoji in the reverse tables is the emoji of the stored record with its own image, or of one of its variations with that variation's image |
| IndexSpec.IndexAllStep | ts/components/emoji/lib.ts:342 | the loop over one more record is the loop so far followed by that record's turn |
| IndexSpec.IndexRecordOwnKey | ts/components/emoji/lib.ts:351-352 | a record listing its own `short_name` is stored under its own emoji |
| IndexSpec.EveryEmojiIndexed | ts/components/emoji/lib.ts:351-352 | after the load, such a record's emoji is a key of `dataByEmoji` |
| IndexSpec.IndexAllPrefixOk | ts/components/emoji/lib.ts:342-361 | a completed loop completed every prefix of itself |
| IndexSpec.IndexAllFirstThrow | ts/components/emoji/lib.ts:342-361 | once a record's turn throws, the loop ends with that exception |
| IndexSpec.IndexVariationsFirstThrow | ts/components/emoji/lib.ts:355-359 | once a variation's key throws, the variation loop ends with that exception |
| IndexSpec.IndexAllPrefixKeys | ts/components/emoji/lib.ts:342-361 | the keys of `dataByEmoji` only grow as the loop goes on |
| IndexSpec.KeysGrowVariations | ts/components/emoji/lib.ts:354-360 | the variation loop only adds keys |
| IndexSpec.KeysGrow | ts/components/emoji/lib.ts:342-361 | one turn of the loop only adds keys |
| IndexSpec.ConvertShortNameTotal | ts/components/emoji/lib.ts:277-288 | over a table of dataset records whose `unified` strings are emoji, `convertShortName` does not throw |
| IndexSpec.IndexVariationsTotal | ts/components/emoji/lib.ts:354-360 | on such a dataset the variation loop does not throw |
| IndexSpec.IndexRecordTotal | ts/components/emoji/lib.ts:342-361 | on such a dataset one turn does not throw and keeps the table's records from the dataset |
| IndexSpec.IndexAllTotal | ts/components/emoji/lib.ts:342-361 | on such a dataset the loop over any of its records does not throw |
| IndexSpec.KeyByFromData | ts/components/emoji/lib.ts:137 | every record of `keyBy` comes from the dataset |
| IndexSpec.IndexVariations | ts/components/emoji/lib.ts:354-360 | definition; characterised by `IndexVariationsKeepsNames`, `IndexVariationsPaired`, `VariationsKeyed`, `IndexVariationsFirstThrow` and `IndexVariationsTotal` |
| IndexSpec.IndexRecord | ts/components/emoji/lib.ts:342-360 | definition; characterised by `IndexRecordPaired`, `RecordKeyed`, `IndexRecordOwnKey`, `KeysGrow` and `IndexRecordTotal` |
| IndexSpec.IndexAll | ts/components/emoji/lib.ts:342-361 | definition; characterised by `IndexAllNames`, `ShortNameTable`, `ReverseTablesPaired`, `LoadKeyed`, `IndexAllFirstThrow` and `LoadCompletes` |
| IndexSpec.LoadCompletes | ts/components/emoji/lib.ts:342-361 | on a dataset whose `unified` strings are all emoji, the load completes |
| Index.EmojiIndex.constructor | ts/components/emoji/lib.ts:137-139 | the filtered dataset, the `keyBy` table, the short-name set and two empty reverse tables |
| Index.EmojiIndex.IndexAllRecords | ts/components/emoji/lib.ts:342-361 | the in-place loop reports an error exactly when the loop throws, and otherwise leaves the tables `IndexSpec.IndexAll` computes; the set is unchanged |
| Index.EmojiIndex.IndexRecordInPlace | ts/components/emoji/lib.ts:343-360 | one record's aliases, emoji and variations, written in place, as `IndexSpec.IndexRecord` |
| Index.EmojiIndex.IndexVariationsInPlace | ts/components/emoji/lib.ts:355-359 | each variation written in place under its tone's emoji, as `IndexSpec.IndexVariations` |
| Index.EmojiIndex.IsShortName | ts/components/emoji/lib.ts:241-243 | true exactly for a record's `short_name` or a non-empty alias some record lists |
| Index.EmojiIndex.EmojiToImage | ts/components/emoji/lib.ts:290-292 | after the load, the own entry of `imageByEmoji`, present exactly for the emoji `emojiToData` knows; on a regular dataset the image of the record, or of the variation, whose emoji is the one looked up |
| Index.EmojiIndex.EmojiToData | ts/components/emoji/lib.ts:294-296 | after the load, the own entry of `dataByEmoji`, a dataset record, present exactly for the emoji `emojiToImage` knows; on a regular dataset the emoji looked up is that record's or one of its variations' |
| Index.Load | ts/components/emoji/lib.ts:342-361 | the module's load: an error exactly when the loop throws, and then the loop's own exception; on success every lookup reads the completed tables; on a dataset of valid `unified` strings it cannot fail |
| SizeClasses.NextMatch | ts/components/emoji/lib.ts:301 | a search finds the first match at or after its start, and none when there is none |
| SizeClasses.EmojiRegex.Exec | ts/components/emoji/lib.ts:301 | a global `exec` searches from `lastIndex` and moves it past the match, or back to 0; a non-global one searches from 0 |
| SizeClasses.CountFromMatches | ts/components/emoji/lib.ts:310-312 | the count from a position is the number of matches after it |
| SizeClasses.SearchSkipsNothing | ts/components/emoji/lib.ts:310-312 | a search passes over no match |
| SizeClasses.FirstSearch | ts/components/emoji/lib.ts:301 | the first search leaves every match to count |
| SizeClasses.NextSearch | ts/components/emoji/lib.ts:310-312 | counting one match leaves exactly those the next search sees |
| SizeClasses.GetEmojiCount | ts/components/emoji/lib.ts:298-314 | with a global expression, the number of emoji matches; otherwise 1 if there is a match, else 0 |
| SizeClasses.GetSizeClass | ts/components/emoji/lib.ts:316-340 | no class if anything but white space remains once the emoji are removed, else the class for the count |
| SizeClasses.PlainTextChars | ts/components/emoji/lib.ts:318 | removing every match leaves exactly the other characters |
| SizeClasses.SizedExactly | ts/components/emoji/lib.ts:316-340 | with the global expression, a class is given exactly to one to five emoji with only white space between them |
| SizeClasses.SizeForCountDistinct | ts/components/emoji/lib.ts:324-338 | each count 1..5 has its own non-empty class |
| SizeClasses.SizeForCount | ts/components/emoji/lib.ts:324-339 | definition; characterised by `SizeForCountDistinct` and `SizedExactly` |
| Search.Cut | ts/components/emoji/lib.ts:227 | the query is cut to its first 32 characters |
| Search.Take | ts/components/emoji/lib.ts:230 | `take` keeps the first n results, none for n <= 0 |
| Search.Search | ts/components/emoji/lib.ts:226-234 | a prefix of the matcher's results for the cut query: all of them for count 0, none for a negative count, otherwise min(count, all) |
| Search.CutIdempotent | ts/components/emoji/lib.ts:227 | cutting twice is cutting once |
| Search.SearchSeesPrefix | ts/components/emoji/lib.ts:227 | queries that agree on their first 32 characters get the same results |
| Search.SearchCountPrefix | ts/components/emoji/lib.ts:229-231 | a larger positive count only adds results after those a smaller one keeps |

## Left out

- `preloadImages`, the image queue and the `images` set (lines 103-135): asynchronous I/O, timers and logging.
- The fuzzy matcher: `Search.Search` takes it as a function parameter, because Fuse's ranking is library code. Only the 32-character cut and `take` are modelled.
- The `emoji-regex` pattern: a message is given already cut into emoji matches and other characters. `lastIndex` counts pieces, not UTF-16 code units. A match is never empty (type `MatchText`), as the expression never matches the empty string; on an empty match a global `exec` would leave `lastIndex` in place and the count loop would not end.
- `ROOT_PATH`: read from `window`, so it is a parameter. The `emoji-datasource` records are a parameter too.
- UTF-16: JavaScript strings are UTF-16 code units, but here strings are sequences of Unicode scalar values and an emoji is its sequence of code points. So `substr(0, 32)` and `trim` on astral characters are counted per character, not per code unit.
- Surrogates: emoji keys are compared as code-point sequences. Two `unified` strings whose lone surrogate code points join into the same UTF-16 string are one key in JavaScript and two in the model.
- Prototype properties: the tables are maps. An inherited property such as `dataByShortName["toString"]` is not modelled.
- JavaScript numbers: `sort_order` and tones are integers. A fractional tone or count, and NaN, are not modelled. Very long hex pieces are not rounded, but such values are above 0x10FFFF either way.
- Index.EmojiIndex.IndexAllRecords: when the loop throws, the ensures say nothing about how far the tables got. Module initialisation then fails and no caller ever reads them.
- Index.EmojiIndex.IndexRecordInPlace: likewise, the tables after an exception are not specified.
- Index.EmojiIndex.IndexVariationsInPlace: likewise, the tables after an exception are not specified.
- The loop calls `convertShortName` twice per key, once for each table. The model calls it once: that function reads the table, and nothing writes the table between the two calls.
- `short_names` is assumed present on every record, as its type declares. The `if (short_names)` guard is always taken.
- Variation entries are kept in a sequence in `Object.entries` order. A lookup takes the first entry with the key; JavaScript keys are unique anyway.
- Index.EmojiIndex.EmojiToImage: which emoji an entry sits under is stated only for a regular dataset (`IndexSpec.Regular`: every record lists its own `short_name`, tone keys distinct and non-empty). Otherwise the key comes from whatever record `dataByShortName` resolves the name to, or from the base record for the empty tone key.
- Index.EmojiIndex.EmojiToData: likewise stated only for a regular dataset.
- Index.EmojiIndex.EmojiToImage and Index.EmojiIndex.EmojiToData: both require the completed load. Importers can only call them after the module's top-level code has run.
