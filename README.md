# AmmoManager, modelled and proved in Dafny

This project models the ammunition tracker of the Shaped Roll20 companion
script: the `AmmoManager` class in `lib/ammo-manager.js`.

When a character attacks with ammunition, `consumeAmmo` does four things:

- It finds the ammunition row on the character sheet. The row is the first
  `repeating_ammo_<rowid>` group that has a `…name` field holding the ammo
  name exactly.
- It works out the quantity used. This is 1, or the number after the hyphen
  of the referenced inline roll's first `digits-digits`.
- It writes the clamped difference `max(0, (parseInt(current, 10) || 0) - used)`
  into that row's first `…qty` field.
- It adds the quantity to a per-character, per-ammo running total in the
  tracking log. The log and the character's entry are created lazily.

`process` answers the `!shaped-ammo` command's `--start`, `--reset` and `--report`
options. `startTracking` clears the log. `reportAmmoUsed` renders the log as
an HTML list, followed by the reset link.

The modules follow the structure of the program:

| module | file | what it holds |
|---|---|---|
| `Wrappers` | wrappers.dfy | `Option` |
| `JsText` | text.dfy | Prefix and suffix tests. The character classes of the regular expressions (`\d`, `.`, white space). Decimal numerals (`String(n)`). The leftmost-match search. |
| `JsParse` | parse.dfy | `parseInt(v, 10) \|\| 0` on an attribute's `current` (text or number) |
| `RollExpression` | rolls.dfy | The `$[[n]]` reference, the `\d+-(\d+)` capture and the quantity used |
| `JsObject` | object.dfy | A JavaScript object used as a dictionary: keys in creation order, and the order `Object.keys` lists them in |
| `Grouping` | group.dfy | `_.groupBy` followed by `_.find` over the groups and within a group |
| `AmmoRows` | rows.dfy | The row key, and resolution of the quantity attribute |
| `AmmoLog` | log.dfy | The tracking log and one consumption, as functions with their lemmas |
| `AmmoReport` | report.dfy | The report text and the reset link |
| `AmmoManagement` | manager.dfy | The `AmmoManager` class: its `ammoLog` field and imperative methods proved against the functions above |

The class is imperative where the source is:

- `ConsumeAmmo` writes one cell of the attribute array and reassigns
  `ammoLog`.
- `Process` and `StartTracking` reassign `ammoLog`.
- `ReportAmmoUsed` builds the text with the two nested `res +=` loops.

Each method's `ensures` ties the new state, or its result, to the function
that specifies it. The properties the source promises are lemmas about those
functions.

Behaviour of the code worth noting:

- `--start` on an undefined or empty log leaves the log exactly as it was.
  The log is created only by the first successful consumption, or by a reset
  of a populated log.
- A report of an empty or undefined log is `<ul></ul><br/>` followed by the
  link, with no notice that nothing was consumed.
- The code has no recovery of ammunition and no enabled flag.
- The placeholder for a character without a name is spelled `unkown`, as the
  code has it.

## Model

| member | source | states |
|---|---|---|
| AmmoRows.RowKey | lib/ammo-manager.js:37 | A name with no match of the pattern is kept whole. Otherwise the key keeps the text before the leftmost match and the "repeating_ammo_" that starts it, and is no longer than the name. |
| AmmoRows.FieldKinds | lib/ammo-manager.js:36-42 | "repeating_ammo_<rowid>_name" is an ammo attribute and a name field but not a quantity field. "…_qty" is an ammo attribute and a quantity field but not a name field. No attribute is both. |
| AmmoRows.RowKeyOfField | lib/ammo-manager.js:37 | The group key of a field named "repeating_ammo_<rowid>_<field>" is "repeating_ammo_<rowid>", for any non-empty row id without an underscore and any field name without a line terminator |
| AmmoRows.FirstRowPattern | lib/ammo-manager.js:37 | The start of the leftmost match of `(repeating_ammo_[^_]+)`, and no earlier position matches. None only when no position matches. |
| AmmoRows.RowKeysInCreationOrder | lib/ammo-manager.js:37-38 | Row keys never look like array indices, so `_.find` visits the groups in the order they were created |
| AmmoRows.ResolveQty | lib/ammo-manager.js:35-43 | The attribute found is in range and is a `…qty` field |
| AmmoRows.ResolveQtyFindsSelectedRow | lib/ammo-manager.js:35-43 | If found, the attribute is an ammo attribute. Its row is the first row in list order with a `…name` field whose current value is exactly (`===`) the ammo name, and it is that row's first `…qty` field. If nothing is found, that row has no `…qty` field. |
| AmmoRows.SelectedRowUnique | lib/ammo-manager.js:38-41 | At most one row is the first one that names the ammo |
| AmmoRows.UnnamedAmmoResolvesNothing | lib/ammo-manager.js:35-48 | If no ammo attribute is a `…name` field holding exactly the ammo name, nothing is resolved |
| AmmoRows.ResolveIgnoresQtyValues | lib/ammo-manager.js:40-42 | Setting the value of a `…qty` field does not change which attribute a later resolution finds |
| Grouping.GroupKeys | lib/ammo-manager.js:37 | The `_.groupBy` keys are distinct, and they are exactly the keys of the elements kept |
| Grouping.GroupMembers | lib/ammo-manager.js:37 | A group holds exactly the indices of its elements, in ascending order |
| Grouping.GroupKeysOrder | lib/ammo-manager.js:37-38 | A group created earlier has an element before every element of a group created later |
| Grouping.FindMarkedGroup | lib/ammo-manager.js:38-41 | `_.find` over the groups: the first group with a marked member, and no earlier group has one |
| Grouping.FirstFlagged | lib/ammo-manager.js:42 | `_.find` within a group: the first flagged member, and no earlier member is flagged |
| Grouping.SelectionOnFlatList | lib/ammo-manager.js:38-42 | The group and member that the two `_.find` calls select, stated on the flat list |
| Grouping.FirstMarkedGroupUnique | lib/ammo-manager.js:38-41 | The first marked group is unique |
| RollExpression.FirstRollRef | lib/ammo-manager.js:52 | The leftmost match of `\$\[\[(\d+)\]\]`, and no match starts before it |
| RollExpression.RollRef | lib/ammo-manager.js:52 | The capture is a non-empty run of digits |
| RollExpression.FirstDash | lib/ammo-manager.js:55 | The leftmost match of `\d+-(\d+)`, and no match starts before it |
| RollExpression.DashTerm | lib/ammo-manager.js:55-57 | The capture is a non-empty run of digits, and there is one only if the expression has a hyphen |
| RollExpression.QuantityUsed | lib/ammo-manager.js:50-60 | Without ammo text, or without a `$[[n]]` reference in it, exactly 1 is used |
| RollExpression.QuantityWithoutSubtraction | lib/ammo-manager.js:55-58 | A referenced roll whose expression has no "digits-digits" match anywhere uses 1, even when it has a hyphen |
| RollExpression.DiceAfterHyphenUsesOne | lib/ammo-manager.js:55-58 | `$[[0]]` referring to "1d6-d4" uses 1 |
| RollExpression.RollRefFindsReference | lib/ammo-manager.js:52-54 | When the text before `$[[n]]` holds no `$[[digits]]`, that `$[[n]]` is the reference, whatever precedes or follows it (a lone `$`, as in "$5 $[[0]]", does not matter) |
| RollExpression.DashTermFindsSubtraction | lib/ammo-manager.js:55-57 | In `pre + x + "-" + y + post`, where `x` and `y` are non-empty digit runs, `pre` has no hyphen and no digit follows `y`, the capture is `y`. A match may start inside `pre` when `pre` ends in digits. |
| RollExpression.DashTermFirstMatch | lib/ammo-manager.js:55-57 | In `pre + x + "-" + y + post`, where `x` and `y` are non-empty digit runs, no match starts within `pre` and no digit follows `y`, the capture is `y`. `pre` may hold hyphens. |
| RollExpression.QuantityFromReferencedRoll | lib/ammo-manager.js:50-60 | When `$[[n]]` is the first reference in the ammo text and refers to an expression `pre + x + "-" + used + post` with `x` a non-empty run of digits, the quantity used is `used`. This holds when no "digits-digits" match starts within `pre` and no digit follows `used`. |
| RollExpression.LeftmostSubtractionDecides | lib/ammo-manager.js:55-57 | `$[[0]]` referring to "d4-1d6-2" uses 1: the leftmost match "4-1" decides |
| RollExpression.ThreeDSixMinusTwoUsesTwo | lib/ammo-manager.js:50-60 | `$[[0]]` referring to "3d6-2" uses 2 |
| JsText.IntToString | lib/ammo-manager.js:62 | `String(n)` of an integer: a minus sign exactly for negatives, then the numeral of the magnitude |
| JsText.NatToString | lib/ammo-manager.js:93 | The numeral of a count: digits only, no leading zero, reading back as the count |
| JsParse.ParseIntReadsLeadingInteger | lib/ammo-manager.js:62 | `parseInt` skips leading white space and reads back the integer written at the front, whatever non-digit follows |
| JsParse.SkipsWhiteSpace | lib/ammo-manager.js:62 | `parseInt` skips exactly the white space in front of the text |
| JsParse.ParseIntNaN | lib/ammo-manager.js:62 | When the text after the white space and an optional sign does not start with a digit, `parseInt` gives NaN and `parseInt(..) \|\| 0` gives 0 |
| JsParse.ParseIntReadsDigits | lib/ammo-manager.js:62 | Any digit run, leading zeros included, after white space and an optional `+` or `-`, is read as its signed value, whatever non-digit follows |
| JsParse.PlusWithLeadingZeros | lib/ammo-manager.js:62 | "+007" reads as 7 |
| JsParse.NegativeWithTrailingText | lib/ammo-manager.js:62 | " -12px" reads as -12 |
| JsParse.NoNumberIsZero | lib/ammo-manager.js:62 | "ten" and the empty text read as 0 |
| JsParse.ParseIntOfNumber | lib/ammo-manager.js:62-63 | A number the script stored parses back as itself |
| JsObject.Put | lib/ammo-manager.js:77-78 | `o[k] = v`: the object stays well-formed and `k` maps to `v`. Other keys keep their presence and values. |
| JsObject.PutKeyOrder | lib/ammo-manager.js:71-78 | Assigning to an existing key keeps the key list as it was. A new key is appended after the others. |
| JsObject.EnumOrder | lib/ammo-manager.js:90-96 | `Object.keys` lists every key exactly once. With no array-index keys, the order is creation order. |
| JsObject.SortByValue | lib/ammo-manager.js:90-96 | Array-index keys are listed in ascending numeric order, as a permutation |
| AmmoLog.DisplayName | lib/ammo-manager.js:72 | A present, non-empty name is used as it is. An absent or empty one becomes "unkown". |
| AmmoLog.Remaining | lib/ammo-manager.js:63 | `Math.max(0, val - used)`: never negative, at least the difference, and either 0 or the difference |
| AmmoLog.LogOrEmpty | lib/ammo-manager.js:65-67 | The log is created empty only when it is undefined. An existing log is kept entry for entry. |
| AmmoLog.WithEntry | lib/ammo-manager.js:69-75 | After this, the character has an entry |
| AmmoLog.WithEntryEffect | lib/ammo-manager.js:69-75 | An existing entry and its counters are kept. A missing one is created under the display name with no counters. Other characters are unaffected. |
| AmmoLog.WithEntryTotals | lib/ammo-manager.js:65-75 | Creating the log or the entry changes no total |
| AmmoLog.AddUse | lib/ammo-manager.js:77-78 | The log stays well-formed and still tracks the character |
| AmmoLog.AddUseEffect | lib/ammo-manager.js:77-78 | Adding a use keeps the character's name and leaves every other character's entry as it was |
| AmmoLog.AddUseTotals | lib/ammo-manager.js:77-78 | The counter grows by `used` (from 0 when it is missing), and every other counter is unchanged |
| AmmoLog.AddUseTotal | lib/ammo-manager.js:77-78 | The same, for one character and ammo: that total plus `used` for the pair updated, and the old total for any other pair |
| AmmoLog.AddUseCounterKey | lib/ammo-manager.js:77-78 | Afterwards the character's counters are the old ones plus the ammo's. The ammo's counter exists even when `used` is 0, and no other counter is created or dropped. |
| AmmoLog.Record | lib/ammo-manager.js:65-78 | After recording, the log is well-formed and tracks the character |
| AmmoLog.RecordEffect | lib/ammo-manager.js:65-78 | The character's entry keeps its old name, or gets the display name when new. Every other entry is unchanged, and no other entry is created or dropped. |
| AmmoLog.RecordTotals | lib/ammo-manager.js:65-78 | The total for this character and ammo grows by `used`, and every other total is unchanged. The character's counters afterwards are the old ones plus the ammo's. |
| AmmoLog.ConsumeAt | lib/ammo-manager.js:45-78 | With nothing resolved, the state is unchanged: no attribute is written and the log is not created |
| AmmoLog.ConsumeAtEffect | lib/ammo-manager.js:45-78 | Only the resolved attribute changes, keeping its name, and it holds the clamped difference. The character is tracked, its total for the ammo grows by the quantity used, and all other totals are unchanged. The ammo's counter exists afterwards, and no other counter is created or dropped. |
| AmmoLog.Consume | lib/ammo-manager.js:34-81 | If no row names the ammo, or that row has no quantity field, nothing changes, and an undefined log stays undefined |
| AmmoLog.ConsumeTouchesOnlyQty | lib/ammo-manager.js:35-63 | A consumption renames no attribute and changes no attribute that is not a `…qty` field |
| AmmoLog.ConsumeAll | lib/ammo-manager.js:34-81 | Consuming requests one after another keeps the log well-formed and the number of attributes |
| AmmoLog.ConsumeAllTouchesOnlyQty | lib/ammo-manager.js:35-63 | However many consumptions run, no attribute is renamed and only `…qty` fields change |
| AmmoLog.ConsumeWritesSelectedRowQty | lib/ammo-manager.js:35-63 | Any attribute a consumption changes is the first `…qty` field of the first row naming the ammo. No attribute of another row, and none outside the ammo rows, changes. |
| AmmoLog.StoredQuantityReadsBack | lib/ammo-manager.js:62-63 | The stored quantity parses back as `max(0, v - used)`, which is never negative |
| AmmoLog.ConsumeLogEntries | lib/ammo-manager.js:65-75 | The log and the entry are created when missing. An existing entry keeps its name, and a new one gets the name or "unkown". Other characters' entries are unchanged, and none are created or dropped. |
| AmmoLog.ConsumeStep | lib/ammo-manager.js:45-78 | After one consumption the same quantity field is still resolved, holds the clamped difference, and the total grows by the quantity used |
| AmmoLog.ClampedSteps | lib/ammo-manager.js:63 | Clamping composes: using `u` and then `w` leaves what using `u + w` at once leaves |
| AmmoLog.RepeatedConsumption | lib/ammo-manager.js:62-78 | Over a sequence of consumptions of one ammo by one character, the field ends at `max(0, v - sum)`. The running total grows by the whole sum, even when the field was clamped at 0 along the way. |
| AmmoReport.CountParts | lib/ammo-manager.js:92-94 | One `<li>name: count</li>` per counter, in the given order |
| AmmoReport.CharacterParts | lib/ammo-manager.js:90-96 | One item per character, in the given order |
| AmmoReport.Characters | lib/ammo-manager.js:90 | The characters visited are tracked ones |
| AmmoReport.Render | lib/ammo-manager.js:88-98 | The report begins with `<ul>` and ends with `</ul><br/>` followed by the reset link |
| AmmoReport.RenderNothingTracked | lib/ammo-manager.js:87-98 | With no log, or an empty one, the report is `<ul></ul><br/>` and the link |
| AmmoReport.CharacterItemContains | lib/ammo-manager.js:91-95 | A character's item holds its header and each of its counters |
| AmmoReport.RenderContainsItem | lib/ammo-manager.js:90-96 | The report holds whatever a tracked character's item holds |
| AmmoReport.ConcatContains | lib/ammo-manager.js:90-96 | The joined text holds every piece |
| AmmoReport.RenderListsEveryCounter | lib/ammo-manager.js:90-96 | Every tracked character appears as `<li>name<ul>`, and every one of its counters as `<li>ammo: total</li>` |
| AmmoManagement.ProcessOutcome | lib/ammo-manager.js:16-32 | On a populated log, `--start` clears it when `--reset` is given, and otherwise leaves it, warns and skips the report. In every other case the log is unchanged. `--report` then reports the log as it stands. |
| AmmoManagement.ResetLinkResets | lib/ammo-manager.js:103-105 | The reset link issues `--start --reset`. Processing those options on a populated log empties it and sends nothing. |
| AmmoManagement.ResetThenReport | lib/ammo-manager.js:17-31 | `--start --reset --report` on a populated log reports an empty list |
| AmmoManagement.AppendCounters | lib/ammo-manager.js:92-94 | The inner loop appends every counter's item in enumeration order |
| AmmoManagement.AppendCharacter | lib/ammo-manager.js:91-95 | One pass of the outer loop appends the character's whole item |
| AmmoManagement.AmmoManager.constructor | lib/ammo-manager.js:6 | A new manager has no log |
| AmmoManagement.AmmoManager.StartTracking | lib/ammo-manager.js:83-85 | The log becomes empty |
| AmmoManagement.AmmoManager.ConsumeAmmo | lib/ammo-manager.js:34-81 | The new attributes and log are exactly what `Consume` gives for the old ones |
| AmmoManagement.AmmoManager.ReportAmmoUsed | lib/ammo-manager.js:87-101 | The message is titled "Ammo Manager" and its text is `Render` of the log. The method has no `modifies`, so the log is unchanged. |
| AmmoManagement.AmmoManager.Process | lib/ammo-manager.js:16-32 | The new log and the message sent are what `ProcessOutcome` gives for the old log |

## Left out

- `addCommands` (command registration with the host's command processor and option validators) is not part of this model, because the processor is host code.
- Chat output through `this.report` is returned as a `Message` value. The logger calls (`logger.error` when nothing is found, the `JSON.stringify` debug dump) are left out as output only.
- `roll20.findObjs` is a host query. The character's attributes are given as an array in the host's enumeration order, each a name and a current value. `set` is a write to that array.
- The character's id, its `name` attribute, the ammo name and text, and the expressions of the message's inline rolls arrive as a `Request` value.
- AmmoLog.Used / RollExpression.QuantityUsed require `RefResolves`: the `$[[n]]` index must be canonical and in range, because the source throws a `TypeError` there otherwise. The exception is not modelled. The source looks the roll up only once a quantity attribute is resolved, so ConsumeAt, Consume and AmmoManager.ConsumeAmmo require it only then.
- AmmoLog.ConsumeAll requires every request's roll reference to resolve, not only those of requests that find a quantity attribute. It composes several calls and has no counterpart in the source.
- The quantity used is a natural number. The source keeps the capture as a string and coerces it with `-` and `parseInt`. These agree for a digit string apart from floating-point rounding of very large numbers, which is not modelled.
- `parseInt` results beyond 2^53 and the floating-point arithmetic of `val - ammoUsed` are modelled as exact integers.
- A character id or ammo name equal to `__proto__`, or any other key that JavaScript objects treat specially, is modelled as an ordinary key.
- Underscore treats an object with a numeric `length` property as array-like in `_.each`. A log or counter keyed by the string "length" is modelled as an ordinary key.
- AmmoLog.RecordTotals states every counter's value after a consumption. It does not state where a new counter's key is placed among the others. That placement is given by JsObject.PutKeyOrder (a new key comes last) and JsObject.EnumOrder.
- HTML escaping of names in the report is absent in the source, and the report is modelled as plain concatenation.
