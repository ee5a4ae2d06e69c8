# XiaoWheel prize-draw core in Dafny

XiaoWheel is a browser lucky-wheel app. Users spin one of five wheels (prize
pools) in turn and collect whole prizes or fragments of prizes. This project
models its bookkeeping core and proves properties of it:

- `Storage` (scripts/storage.js) holds four things:
  - the prize catalog;
  - the five wheel settings;
  - a progress record per user (current wheel, spins on it, inventory, fragments);
  - the selected user.

  Its methods do the following:
  - create user records;
  - record a draw: fragments accrue and overflow into completed sets, whole
    prizes go to the inventory, and "not counted" prizes are skipped;
  - advance the user through wheels 1 to 5 and back to 1;
  - render a user's text report;
  - swap the configuration on export and import, all or nothing;
  - reset to the defaults.
- The weighted draw and the `isSpinning` guard of `LuckyWheel` (scripts/wheel.js).
  `finishSpin` looks the drawn entry up in the catalog and records it.
- The pool-configuration handlers of the admin page (scripts/main.js):
  - removing a prize from the catalog and from every wheel;
  - changing an entry's weight;
  - splicing an entry out of a wheel;
  - the two ways of adding a catalog prize to a wheel;
  - editing a prize's fragment count.

## Modules

- `Prizes`: the catalog, wheel and snapshot datatypes, plus the pure parts of
  storage.js: thresholds, default wheels, lookup and filtering by id, and
  import validation.
- `Progress`: the user record and what one draw does to it, as functions.
  `ApplyDraw` is the specification `Storage.RecordPrize` is proved against.
- `Report` and `Decimal`: the text of `exportUserData`, as a function of the
  record.
- `PrizeStorage`: the `Storage` class. Every method states its whole new
  state, and `Valid()` is kept throughout. The invariant says:
  - there are five wheels;
  - the selected user has a record;
  - every record is on a wheel in 1..5, below that wheel's threshold;
  - no record lists a name twice.
- `Selection`: the weighted-selection loop, proved against `IsSelection`.
- `WheelSpin`: the `LuckyWheel` class with its `isSpinning` field.
- `Admin`: the handlers of main.js, as methods on a `Storage`.

## How JavaScript values are modelled

- **Inventory and fragments.** The source keeps them as objects keyed by
  prize name. They are modelled as association lists:
  - a new key goes at the end;
  - an existing key keeps its place;
  - `Object.entries` lists them in that order.
- **Parsed numbers.** A number read with `parseInt` is an `Option<int>`, with
  `None` for NaN. `parseInt(x) || d` is `Or(x, d)`.
- **Weights.** A weight of 0 stands for an absent weight, since both read as
  1 under `weight || 1`.
- **Errors.** Where the source stops on a TypeError before changing anything,
  the model returns failure and changes nothing. Examples: a wheel index that
  does not exist, or no selected user in `addToInventory`.

## Behaviour of the code the model keeps

- **Wheel advancement.** The threshold is the fixed `getRequiredSpins`
  table. The wheel's own `requiredSpins` field is never read.
- **Choosing an entry.** The draw takes the first entry whose running sum
  satisfies `r <= sum`.
- **Weights.** Weights and names are not validated: a negative parsed weight
  is kept, and `Storage.addPrize` accepts an empty name. The selection lemmas
  that need non-negative weights say so.
- **`removeWheelPrize`.** It works by position with `splice`. A negative
  position counts from the end.
- **Fragment counts.** A fragment record's `required` is fixed when the
  record is created. Overflow is measured against the catalog's current
  `fragmentCount`. So after `editFragmentCount`, `current` and `required` can
  disagree (see `Admin.EditedPrizeIsFound` and `Progress.FragmentDraw`).

## Model

| member | source | states |
|---|---|---|
| Decimal.NatToString | scripts/storage.js:151-159 | `${n}` of a non-negative integer below 10^21 (where JavaScript switches to exponent form) is a non-empty string of decimal digits without a leading zero, one digit exactly below 10 |
| Decimal.ParseNatToString | scripts/storage.js:151-159 | reading the rendered digits back gives the number: no information is lost in the report |
| Decimal.NatToStringInjective | scripts/storage.js:151-159 | distinct counts render as distinct text |
| Decimal.IntToString | scripts/storage.js:156-159 | `${i}` of an integer of magnitude below 10^21: the digits of a non-negative one, and for a negative one a `-` followed by the digits of its magnitude; it starts with `-` exactly when the integer is negative |
| Prizes.Or | scripts/main.js:174 | a parsed input or its fallback: the parsed value unless it is NaN or 0, in which case the fallback; with a non-zero fallback the result is never 0 |
| Prizes.RequiredSpins | scripts/storage.js:24-33 | 12, 10, 8, 6, 4 for wheels 1..5 (14 - 2w) and 12 for any other number, always within 4..12 |
| Prizes.NextWheel | scripts/storage.js:130 | wheels 1..4 move to the next one and 5 wraps to 1, staying in 1..5 |
| Prizes.DefaultWheelSettings | scripts/storage.js:16-22 | exactly the five wheels with ids 1..5, no prizes and thresholds 12, 10, 8, 6, 4 |
| Prizes.IndexOf | scripts/storage.js:96 | `find` by id: None exactly when no entry has the id, else the position of the first entry with it |
| Prizes.FindPrize | scripts/storage.js:96 | None exactly when no catalog entry has the id, else the FIRST catalog entry with that id, as `find` returns, even when ids repeat |
| Prizes.Without | scripts/storage.js:78 | the id filter never lengthens the list |
| Prizes.WithoutMembers | scripts/storage.js:78 | an entry survives the filter exactly when it was there and has another id |
| Prizes.WithoutAppend | scripts/main.js:159 | filtering works piece by piece, so the survivors keep their relative order |
| Prizes.WithoutAbsent | scripts/main.js:159 | a list without the id passes through the filter unchanged |
| Prizes.CheckImportAccepts | scripts/storage.js:181-193 | an import passes validation exactly when `prizes` is an array and `wheelSettings` is an array of five |
| Prizes.CheckImport | scripts/storage.js:181-193 | the error an import throws, in the order tested: invalid format when either field is falsy, else a prizes error when `prizes` is not an array, else a wheel error unless `wheelSettings` is an array of five |
| Prizes.Snapshot | scripts/storage.js:171-176 | an exported configuration passes import validation exactly when it has five wheels |
| Prizes.SnapshotIsAccepted | scripts/storage.js:171-198 | an exported configuration with five wheels passes validation and carries the catalog and wheels unchanged |
| Progress.NewRecord | scripts/storage.js:45-52 | a new user's record starts on wheel 1 with no spins, no inventory and no fragments, and keeps the record invariant |
| Progress.CountIsLookup | scripts/storage.js:140 | the lookup of `inventory[name]`, or 0: 0 for a name with no entry, else the count of the first entry under the name |
| Progress.CountAfterAdd | scripts/storage.js:138-141 | `addToInventory(name, count)` raises `inventory[name]` by `count` and every other name's count by nothing |
| Progress.AddCountKeepsOrder | scripts/storage.js:140 | an existing inventory key keeps its place, a new one is appended, the names in place are unchanged |
| Progress.AddCountKeepsUnique | scripts/storage.js:140 | the inventory never lists a name twice |
| Progress.FindFragment | scripts/storage.js:103 | a found fragment record is the one under the name asked for |
| Progress.FindFragmentFinds | scripts/storage.js:103 | the `!fragments[name]` test: nothing is found exactly when no record carries the name, else the record found is the first in the list that carries it |
| Progress.FindAfterPut | scripts/storage.js:104-116 | after storing a fragment record its name finds it and every other name finds what it found before |
| Progress.PutFragmentKeepsOrder | scripts/storage.js:103-109 | an existing fragment key keeps its place and a new one is appended |
| Progress.PutFragmentKeepsUnique | scripts/storage.js:103-109 | the fragments never list a name twice |
| Progress.FragmentOf | scripts/storage.js:103-109 | the fragment record a draw updates: the one found under the name, or, when there is none, a fresh `{current: 0, required: fragmentCount, completedSets: 0}` with the catalog's count |
| Progress.Bump | scripts/storage.js:110-116 | one more fragment keeps the name and `required`, leaves `current` below the catalog count fc, adds floor((c+1)/fc) completed sets and loses no fragment: new current + fc × new sets = c + 1 |
| Progress.AddFragmentEffect | scripts/storage.js:101-118 | the fragment step alone: the record found under the name becomes the bumped one and the inventory gains the completed sets |
| Progress.FragmentDraw | scripts/storage.js:101-118 | a counted fragment draw turns `current` c into (c+1) mod fc, below fc; `completedSets` and `inventory[name]` both grow by floor((c+1)/fc); `required` keeps its creation value |
| Progress.WholePrizeDraw | scripts/storage.js:119-122 | a counted prize with fragment count 0 raises `inventory[name]` by exactly 1 and leaves the fragments alone |
| Progress.NotCountedDraw | scripts/storage.js:100 | a not-counted prize leaves inventory and fragments unchanged |
| Progress.OtherNamesUnchanged | scripts/storage.js:100-141 | a draw leaves every other name's inventory count and fragment record unchanged |
| Progress.AdvanceSpin | scripts/storage.js:125-132 | only the wheel progress changes: one more spin on the same wheel, or 0 spins on `NextWheel`; a record on wheels 1..5 below its threshold stays so |
| Progress.ApplyDraw | scripts/storage.js:92-136 | the wheel progress after a draw is that of `AdvanceSpin` of the old record, whatever the prize drawn |
| Progress.ApplyDrawKeepsValid | scripts/storage.js:125-132 | every draw keeps the record invariant: wheel in 1..5, spins below its threshold, names unique |
| Progress.WheelProgression | scripts/storage.js:125-132 | from wheel w with s spins, the next RequiredSpins(w)-s-1 draws stay on w adding one spin each, and the one after moves to NextWheel(w) with 0 spins |
| Progress.FragmentCycle | scripts/storage.js:101-118 | with no record for the name, k < fc draws leave k fragments and no set; draw fc completes one set, adds one to the inventory and resets the count to 0 |
| Progress.NextFragment | scripts/storage.js:101-118 | holding c < fc fragments and no set, the next counted draw holds c+1, or on reaching fc holds 0 with one set and one more in the inventory |
| Progress.RepeatUnfoldsLast | scripts/storage.js:92-136 | n+1 draws are n draws followed by one more |
| Report.Header | scripts/storage.js:148 | the header is one line holding the user's name after `【` |
| Report.ItemLine | scripts/storage.js:151 | an inventory line holds the name after `- ` and ends the line; the digits between `: ` and `个` read back as the count |
| Report.FragmentLine | scripts/storage.js:156 | a fragment line holds the name after `- ` and ends the line; its three numbers are digit runs that read back as `current`, `required` (with its sign) and `completedSets` |
| Report.StatusLine | scripts/storage.js:159 | the status line starts after a blank line and ends the line; the wheel number (with its sign) and the spin count read back from it |
| Report.LinesAppend | scripts/storage.js:150-157 | the `forEach` lines of two lists in a row are the lines of the first followed by those of the second |
| Report.LineAt | scripts/storage.js:150-157 | one line per entry in entry order: entry i's line stands between the lines of the entries before and after it |
| Report.ReportLayout | scripts/storage.js:144-161 | the report starts with the `【name的奖品记录】` header, ends with the wheel status line, and has between them the inventory title and lines and the fragment title and lines |
| PrizeStorage.Storage.constructor | scripts/storage.js:2-14 | over an empty store: no user selected, empty catalog, the default wheels, no records |
| PrizeStorage.Storage.SwitchUser | scripts/storage.js:42-55 | an empty name is refused and changes nothing; any other becomes the selected user, with a fresh record {1, 0, {}, {}} only if it had none |
| PrizeStorage.Storage.AddPrize | scripts/storage.js:65-75 | appends and returns `{id, name, fragmentCount, notCounted}`, the count parsed with NaN read as 0; with a fresh id the catalog then finds it |
| PrizeStorage.Storage.RemovePrize | scripts/storage.js:77-80 | the catalog keeps exactly the entries with another id, in order; nothing else changes |
| PrizeStorage.Storage.AddToInventory | scripts/storage.js:138-141 | with a selected user, adds `count` under the name in that user's inventory; without one changes nothing |
| PrizeStorage.Storage.RecordPrize | scripts/storage.js:92-136 | fails and changes nothing with no user or an id missing from the catalog; otherwise the user's record becomes `ApplyDraw` of the old one with the catalog entry, under the drawn name, and `Valid()` is kept |
| PrizeStorage.Storage.RecordWin | scripts/storage.js:100-123 | the selected user's record becomes `AddWin` of the old one: nothing for a not-counted prize, a fragment for a fragment prize, one whole prize otherwise |
| PrizeStorage.Storage.AdvanceWheel | scripts/storage.js:125-132 | the selected user's record becomes `AdvanceSpin` of the old one |
| PrizeStorage.Storage.StoreFragment | scripts/storage.js:103-116 | the selected user's fragments become the old ones with this record stored under its name |
| PrizeStorage.Storage.RecordFragment | scripts/storage.js:101-118 | the selected user's record becomes `AddFragment` of the old one: one more fragment, whole sets moved into completed sets and the inventory |
| PrizeStorage.Storage.ExportUserData | scripts/storage.js:144-161 | the empty string for a user without a record, else exactly `UserReport` of that record |
| PrizeStorage.Storage.ResetUserData | scripts/storage.js:164-168 | no records, no selected user, catalog and wheels unchanged |
| PrizeStorage.Storage.ExportWheelSettings | scripts/storage.js:171-176 | the export carries the catalog and wheels and always passes import validation |
| PrizeStorage.Storage.ImportWheelSettings | scripts/storage.js:179-203 | succeeds exactly when validation passes and then takes both lists; otherwise catalog and wheels are unchanged; users are never touched |
| PrizeStorage.Storage.ResetWheelSettings | scripts/storage.js:206-210 | an empty catalog and the five default wheels, users unchanged |
| PrizeStorage.AppendLines | scripts/storage.js:150-157 | the `forEach` appends exactly the lines of the entries, in order |
| PrizeStorage.ExportThenImport | scripts/storage.js:171-203 | importing the export succeeds and leaves the storage exactly as it was |
| Selection.Weight | scripts/wheel.js:171-178 | an entry counts with its own weight, or with 1 when the weight is absent (0), as the `or 1` fallback gives; so never 0, and at least 1 for a non-negative weight |
| Selection.SelectIndex | scripts/wheel.js:172-183 | the loop returns the first index whose running sum reaches r, every earlier sum being below r, or 0 when none does |
| Selection.TotalWeight | scripts/wheel.js:171 | the `reduce` total of a wheel without negative weights is at least its number of entries (so positive when it is non-empty); it is the running sum the loop reaches at its last entry |
| Selection.Draw | scripts/wheel.js:171-185 | the draw for `Math.random()` = `random` is the `IsSelection` index for `random * total` (the predicate `Drew`), and 0 for an empty wheel |
| Selection.SelectionIsUnique | scripts/wheel.js:177-183 | a draw has one answer |
| Selection.PrefixMonotone | scripts/wheel.js:178 | with no negative weight the running sums grow by at least 1 per entry |
| Selection.TotalIsPositive | scripts/wheel.js:171 | with no negative weight a non-empty wheel's total is at least its number of entries, so positive |
| Selection.InRangeIsReached | scripts/wheel.js:172-183 | with no negative weight every r in [0, total] is reached, so the fallback is never taken for `Math.random() * total` |
| Selection.AboveTotalFallsBack | scripts/wheel.js:174 | with no negative weight an r above the total falls back to index 0 |
| Selection.SelectionInterval | scripts/wheel.js:172-183 | for 0 < r at most the total and no negative weight, entry i is drawn exactly when Prefix(i) < r <= Prefix(i+1), an interval as wide as its weight |
| Selection.SinglePrizeIsDrawn | scripts/wheel.js:171-185 | a wheel with one entry always draws it |
| WheelSpin.LuckyWheel.constructor | scripts/wheel.js:2-4 | a wheel over the storage, not spinning |
| WheelSpin.LuckyWheel.CurrentWheel | scripts/wheel.js:158 | the selected user's current wheel is one of the five wheels |
| WheelSpin.LuckyWheel.StartSpin | scripts/wheel.js:149-185 | while spinning, nothing happens; with no user or an empty current wheel it returns without setting `isSpinning`; otherwise it sets `isSpinning` and draws the `IsSelection` entry for `random * total` |
| WheelSpin.LuckyWheel.FinishSpin | scripts/wheel.js:247-307 | an id missing from the catalog records nothing; otherwise the storage records the draw with the catalog's flags; `isSpinning` is false afterwards either way |
| WheelSpin.LuckyWheel.Spin | scripts/wheel.js:149-212 | a spin while spinning is ignored; otherwise it is refused exactly when there is no user or the current wheel is empty, and else draws the `IsSelection` entry of the current wheel for `random * total`; the wheel ends idle, and the user's record becomes `ApplyDraw` of the drawn entry exactly when its id is in the catalog, or stays unchanged |
| Admin.PushKeepsUnique | scripts/main.js:200-212 | pushing an entry whose id is not in the wheel keeps the wheel's ids unique |
| Admin.EntryFor | scripts/main.js:206-212 | the pushed entry carries the weight given and every field of the catalog prize, which can be rebuilt from it |
| Admin.Cascade | scripts/main.js:158-160 | one wheel for each wheel, with its id and threshold, and no wheel grows |
| Admin.CascadeRemovesEverywhere | scripts/main.js:158-160 | after the cascade no wheel holds the id, every other entry stays in its wheel, and wheel ids and thresholds are kept |
| Admin.RemovePrize | scripts/main.js:152-170 | every wheel loses its entries with the id, the catalog loses that id as well, users unchanged |
| Admin.UpdatePrizeWeight | scripts/main.js:172-178 | fails with nothing changed when the wheel or the entry is missing; otherwise only that entry's weight changes, to the parsed weight, or 1 when it parses to NaN or 0 |
| Admin.ReweightTotal | scripts/main.js:174 | the new weight counts as the parsed value (or 1), and the wheel's total changes by exactly new minus old weight |
| Admin.SpliceStart | scripts/main.js:186 | `splice`'s start: in range as given, a negative start counts from the end, both ends clamp |
| Admin.RemoveAt | scripts/main.js:186 | `splice(start, 1)` removes one entry when there is one at or after the clamped start, and nothing from an empty list or from past the end; it never adds an entry |
| Admin.RemoveAtShifts | scripts/main.js:186 | removing position i drops exactly that entry (as a multiset too) and shifts the later ones down by one |
| Admin.RemoveAtOutside | scripts/main.js:186 | a negative position counts from the end, one before the start removes the first entry, one past the end removes nothing |
| Admin.RemoveWheelPrize | scripts/main.js:180-191 | with the wheel present, its entries become the spliced list and the other wheels are unchanged; otherwise nothing changes |
| Admin.AddWheelPrize | scripts/main.js:193-218 | an unknown (or NaN) id does nothing, a missing wheel does nothing, a duplicate is refused; otherwise exactly one entry with the catalog's id, name and flags and the parsed weight (1 for NaN or 0) is appended to that wheel only; ids stay unique |
| Admin.EditFragmentCount | scripts/main.js:270-286 | an unknown id, a cancelled prompt or a NaN or non-positive count changes nothing; otherwise only the first catalog entry with the id gets the new count; wheels and user records are untouched |
| Admin.EditedPrizeIsFound | scripts/main.js:283 | after the edit the catalog finds the same prize with the new count, which the next draw uses |
| Admin.AddToWheel | scripts/main.js:341-371 | a NaN or 0 id is refused first, then an unknown prize, then a wheel id no wheel has, then a duplicate; otherwise `{...prize, weight}` is appended to the first wheel with that id only; ids stay unique |

## Left out

- Persistence: `localStorage`, `JSON.parse`/`JSON.stringify`, `saveData` and
  `loadData`. The constructor starts from an empty store, and saving is a no-op.
- `Date.now()` as the id source of `addPrize`: the id is a parameter.
- `Math.random()` is a parameter in `[0, 1)`. `parseInt` of form fields is
  replaced by its result.
- The browser side is not modelled: canvas drawing, text wrapping, the
  angle computation and its animation, confetti, modals, alerts, download
  links, and the HTML tables and lists.
  - Only the confirmed path of `confirm` dialogs is modelled.
  - Of the animation, only its effect on the model is kept: it clears
    `isSpinning` when it ends (scripts/wheel.js:238).
- Asynchrony: `spin` is modelled as one call. Its only await points are the
  animation and `finishSpin`, and `recordPrize` runs synchronously. The
  `isSpinning` guard is modelled as the start of a spin while another is
  running.
- The `try`/`catch` around the selection in `spin`: nothing in the model can
  throw there.
- `updateWheelPrizes` (scripts/storage.js:83-89) and `getCurrentUser`
  (scripts/storage.js:57-62) are not part of the core. `getCurrentUser` appears
  only inside `LuckyWheel.CurrentWheel` and the guards.
- JavaScript object quirks are not modelled:
  - names that collide with `Object.prototype` keys;
  - integer-like keys, which `Object.entries` lists first in numeric order.
- Imported catalog and wheel entries are taken to be well formed: the import
  checks only the two arrays and the number of wheels.
  - `null` wheels, which `spin` would skip with its `!currentWheel` test, are
    not modelled.
  - Extra fields that `{...prize, weight}` would copy are not modelled.
- Aliasing: `exportWheelSettings` returns the live arrays, and the handlers
  mutate wheel objects in place. The model has value semantics, so a later
  change to the exported object is not seen by the storage.
- Numbers are integers: non-integer weights and counts, which `parseInt`
  never yields, are not modelled.
- IEEE double behaviour is not modelled. The model's `int` and `real` are
  exact, so it does not capture:
  - `${n}` writing 10^21 and above in exponent form (a fragment count
    entered as 1000000000000000000000 prints `当前0/1e+21`, while
    `FragmentLine` writes 22 digits);
  - rounding of sums above 2^53 in `reduce` and `accumulatedWeight +=`
    (weights [2^53, 1, 1], for example), and of `Math.random() * totalWeight`.
- `importWheelSettings(null)` or `(undefined)`: reading `data.prizes` throws
  a TypeError, which is caught, so the import returns false with nothing
  changed. `ConfigData` always has the two fields, so this payload is not
  expressible.
