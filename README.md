# Precious Days character sheet — a Dafny model

This project models the core of the Precious Days character sheet, a Next.js app for a tabletop role-playing game. The app keeps character records in an R2 (S3-compatible) object bucket:

- Each record is encrypted with AES-256-CBC, written as `IV || ciphertext`, and stored under `preciousdays/<id>.json`. Older records were stored under `<id>.bin`.
- A plaintext index, `preciousdays/index.json`, holds one summary per record. It is kept sorted: normal characters newest first, then the sample characters ordered by id.
- The edit screen recomputes ability totals from the species, style and element tables. It validates the ability bonuses and clamps the growth level (GL).
- The edit screen also edits the skill, item, equipment, combat and resource fields.
- The combat, weight, equipment and resource cards derive their figures from the record.
- A record with a password can be edited only after `POST /api/verify_password` has set the cookie `edit_allowed_<id>`. The edit page checks for that cookie.
- Smaller rules cover the numeric text box, the header titles and the login notification.

The model follows the shape of the source:

- Code that computes values is written as datatypes, functions and lemmas.
- Code that changes state step by step is written as methods:
  - `Storage.Bucket` works on the bucket's `objects` map;
  - `EditForm.SubmitGuard` holds the form's submit flag;
  - `EquipmentSection.EquipmentRow` and `NumberInput.NumberField` hold the mirrored text state;
  - loop methods replace the source's `forEach` loops.
- Each method is proved equal to a specification function, and the properties are proved about that function.

The bucket is modelled as a map from keys to byte strings. The modules are these:

- The cipher is written out in module `Cipher`: CBC chaining, PKCS#7 padding and the IV prefix. Its block function is a keyed permutation standing in for AES.
- `JSON.stringify`/`JSON.parse` over UTF-8 are replaced by a byte coding of JSON trees (module `Tree`), with a proved round trip.
- How records and index entries become JSON, and how they are read back, is in module `Records`.
- The JavaScript value rules the code relies on are in module `Js`. They cover `undefined`/`null`/NaN, `x || 0`, truthiness and `Math.floor(x / 3)`.
- The JavaScript string functions the code uses are in module `Strings`.

## Model

| member | source | states |
|---|---|---|
| Js.Add | src/components/preciousdays/CombatSection.tsx:99 | JavaScript `+` on number fields: NaN exactly when one side is NaN or `undefined`, else the sum with `null` counted as 0 |
| Js.FloorThird | src/hooks/preciousdays/useCharacterActions.ts:79 | `Math.floor(x / 3)`: NaN exactly for a non-numeric input, otherwise the unique `q` with `3q <= x < 3q + 3` |
| Strings.Trim | src/app/actions/auth.ts:13 | `trim()`: the result neither starts nor ends with whitespace, and it is empty exactly when the input is all whitespace |
| Strings.TrimStart | src/app/actions/auth.ts:13 | the result is a suffix of the input with only whitespace cut off, and it does not start with whitespace |
| Strings.TrimEnd | src/app/actions/auth.ts:13 | the result is a prefix of the input with only whitespace cut off, and it does not end with whitespace |
| Strings.Split | src/app/actions/auth.ts:10-13 | `split(sep)`: at least one piece, and no piece contains the separator |
| Strings.JoinSplit | src/app/actions/auth.ts:13 | joining the pieces of a split with the separator gives the original string back |
| Strings.SplitFirst | src/app/actions/auth.ts:10 | the first piece is the longest separator-free prefix, and a separator follows it when it is shorter than the string |
| Strings.ParseInt | src/components/ui/NumberInput.tsx:20 | `parseInt(s, 10)` yields an integer or NaN, never a missing value |
| Strings.ParseIntToString | src/components/ui/NumberInput.tsx:20-24 | `parseInt(n.toString())` is `n` for every integer |
| Strings.ParseIntSignedDigits | src/components/ui/NumberInput.tsx:31-41 | on input passing `^-?\d*$`, `parseInt` is NaN exactly for `""` and `"-"`, and otherwise reads every digit with the sign |
| Strings.ParseIntDigits | src/components/ui/NumberInput.tsx:35 | a non-empty digit string parses to its decimal value |
| Strings.ParseIntNegative | src/components/ui/NumberInput.tsx:35 | `"-"` followed by digits parses to the negated value, and the lone `"-"` to NaN |
| Strings.DigitPrefix | src/components/ui/NumberInput.tsx:20 | the longest prefix of digits: all its characters are digits, and the character after it is not |
| Strings.NatToString | src/components/ui/NumberInput.tsx:24 | the decimal text of a natural number is a non-empty digit string whose value is that number |
| Strings.IntToString | src/components/ui/NumberInput.tsx:24 | `n.toString()` is non-empty and does not start with whitespace |
| Strings.NumberReading | src/components/preciousdays/CombatSection.tsx:79 | `Number(s)` on a string that is empty or all whitespace is 0; otherwise the trimmed text is read as a `0x`/`0o`/`0b` literal, or a signed decimal literal or `Infinity` |
| Strings.StringToNumber | src/components/preciousdays/CombatSection.tsx:79 | `Number(s)` on a string is an integer or NaN: a whole-number reading is that integer, and text that is no numeric literal is NaN |
| Strings.TextToNumber | src/components/preciousdays/CombatSection.tsx:79 | `Number(x)` on an optional string is an integer or NaN, `undefined` gives NaN, and a string is read as `Number(s)` |
| Strings.NumberIntToString | src/components/preciousdays/CombatSection.tsx:79 | `Number(n.toString())` is `n` for every integer |
| Strings.NumberZeroFraction | src/components/preciousdays/CombatSection.tsx:79 | a fraction part of zeros changes nothing: `Number("5.0")` and `Number("5.")` are 5 |
| Strings.NumberExponent | src/components/preciousdays/CombatSection.tsx:79 | digits followed by `e` and an exponent are the value times that power of ten: `Number("1e1")` is 10 |
| Strings.NumberHex | src/components/preciousdays/CombatSection.tsx:79 | `0x` followed by hexadecimal digits is read in base 16: `Number("0x10")` is 16 |
| Strings.NumberDigitsThenText | src/components/preciousdays/CombatSection.tsx:79 | digits followed by text that starts neither a fraction nor an exponent are NaN |
| Strings.NumberDice | src/components/preciousdays/CombatSection.tsx:79 | the dice notation `"2D+7"` is NaN, so it adds 0 to the damage |
| Strings.LessIrreflexive | src/lib/preciousdays/data.ts:199 | the string order behind `localeCompare` never puts a string before itself |
| Strings.LessAsymmetric | src/lib/preciousdays/data.ts:199 | if `a` sorts before `b`, then `b` does not sort before `a` |
| Strings.LessTransitive | src/lib/preciousdays/data.ts:203 | the string order is transitive |
| Strings.LessTotal | src/lib/preciousdays/data.ts:203 | of two different strings, one sorts before the other |
| Bytes.DecodeEncodeString | src/lib/preciousdays/data.ts:34 | decoding the bytes a string was written as gives the string and the remaining bytes back |
| Bytes.DecodeEncodeInt | src/lib/preciousdays/data.ts:157 | decoding the bytes of an integer gives it back, negative numbers included |
| Bytes.DecodeEncodeNat | src/lib/preciousdays/data.ts:157 | decoding the bytes of a length or natural number gives it back |
| Tree.Lookup | src/app/api/verify_password/route.ts:64 | a member lookup finds nothing exactly when no member has that key |
| Tree.LookupAppend | src/app/api/verify_password/route.ts:64 | looking a key up in two member lists joined finds it in the first list when it is there |
| Tree.MemberObjectOf | src/lib/preciousdays/data.ts:147 | reading a member of an object literal with distinct keys gives what was written, `undefined` included |
| Tree.Decode | src/lib/preciousdays/data.ts:98 | a successful parse consumes at least one byte |
| Tree.DecodeEncode | src/lib/preciousdays/data.ts:98 | parsing the bytes of any JSON value, with more bytes after it, gives the value and those bytes back |
| Tree.ParseEncode | src/lib/preciousdays/data.ts:98 | `JSON.parse(JSON.stringify(v))` is `v` |
| Cipher.XorBitsTwice | src/lib/preciousdays/data.ts:33-35 | XOR-ing twice with the same bits gives the original number |
| Cipher.XorTwice | src/lib/preciousdays/data.ts:33-35 | bytewise XOR with the same block twice is the identity |
| Cipher.DecryptEncryptBlock | src/lib/preciousdays/data.ts:30-47 | the block decryption inverts the block encryption under the same key |
| Cipher.CbcDecryptEncrypt | src/lib/preciousdays/data.ts:30-47 | CBC decryption under the same key and IV inverts CBC encryption of whole blocks |
| Cipher.Pad | src/lib/preciousdays/data.ts:35 | PKCS#7 padding appends 1 to 16 bytes and reaches a whole number of blocks |
| Cipher.UnpadPad | src/lib/preciousdays/data.ts:35-45 | removing the padding that was added gives the plaintext back |
| Cipher.Encrypt | src/lib/preciousdays/data.ts:30-37 | the blob is the 16-byte IV followed by whole blocks of ciphertext |
| Cipher.Decrypt | src/lib/preciousdays/data.ts:39-47 | the blob is split after 16 bytes; a blob that is too short or an invalid padding is a failure |
| Cipher.DecryptEncrypt | src/lib/preciousdays/data.ts:30-47 | decrypting a blob with the key it was made with gives the plaintext back |
| Cipher.EncryptDistinctIvs | src/lib/preciousdays/data.ts:31-36 | two blobs made with different IVs never coincide, because the IV is the blob's first 16 bytes |
| CharacterTypes.SlotsInOrder | src/components/preciousdays/CombatSection.tsx:66 | the slot list names the six equipment fields in the order of the source's slot array |
| GameData.AbilityKeysExact | src/constants/preciousdays.ts:2-9 | `ABILITY_KEYS` lists six abilities, all distinct, every ability among them, with distinct record keys |
| GameData.ParseSpecies | src/constants/preciousdays.ts:19-68 | a species lookup succeeds only for the species' own key |
| GameData.ParseSpeciesName | src/constants/preciousdays.ts:19-68 | every species is found under its key |
| GameData.SpeciesBaseRange | src/constants/preciousdays.ts:19-68 | every species' base value for every ability lies in [5, 12] |
| GameData.SpeciesBaseOrZero | src/components/preciousdays/WeightSection.tsx:11 | `SPECIES_DATA[key]?.abilities[a] \|\| 0`: the table value for a known key, 0 for any other string (for an inherited name, see "Left out") |
| GameData.ParseStyle | src/constants/preciousdays.ts:70-131 | a style lookup succeeds only for the style's own key |
| GameData.ParseStyleName | src/constants/preciousdays.ts:70-131 | every style is found under its key |
| GameData.StyleBonus | src/constants/preciousdays.ts:70-131 | `bonuses[a] \|\| 0` is 1 exactly for the abilities the style lists, and 0 for the others |
| GameData.StyleBonusesThree | src/constants/preciousdays.ts:70-131 | every style grants +1 to exactly three abilities |
| GameData.ResourceBudget | src/constants/preciousdays.ts:70-131 | every style's HP and MP bases add up to 45, and their growths to 11 |
| GameData.HpBaseOrZero | src/lib/preciousdays/data.ts:117 | `STYLE_DATA[key]?.hp.base \|\| 0`: the style's HP base for a known key, 0 otherwise (for an inherited name, see "Left out") |
| GameData.MpBaseOrZero | src/lib/preciousdays/data.ts:118 | `STYLE_DATA[key]?.mp.base \|\| 0`: the style's MP base for a known key, 0 otherwise (for an inherited name, see "Left out") |
| GameData.ParseElement | src/constants/preciousdays.ts:133-140 | an element lookup succeeds only for the element's own key |
| GameData.ElementBonus | src/constants/preciousdays.ts:133-140 | an element's bonus is 1 for the one ability it raises, and 0 for the others |
| GameData.ElementBonusOne | src/constants/preciousdays.ts:133-140 | every element grants +1 to exactly one ability, and no two elements raise the same one |
| GameData.TableKeysOwn | src/constants/preciousdays.ts:19-169 | no key of `SPECIES_DATA`, `STYLE_DATA` or `ELEMENT_DATA` is one of the twelve names every object inherits from `Object.prototype` |
| GameData.StyleMagicType | src/constants/preciousdays.ts:157-169 | `STYLE_MAGIC_TYPE` is defined exactly for the six style keys |
| GameData.StyleMagicTwoEach | src/constants/preciousdays.ts:157-169 | each style maps to its magic type, two styles to each type, with the pairs as listed |
| GameData.InitialAbilities | src/constants/preciousdays.ts:178-198 | the `forEach` loop gives each ability base = species base, bonus = style bonus or 0, total = base + bonus, adjusted = floor(total / 3), and no other modifier |
| GameData.InitialScores | src/constants/preciousdays.ts:184-195 | the per-key score the loop builds holds exactly those five values |
| GameData.IndexOf | src/constants/preciousdays.ts:2-9 | each ability has exactly one position in `ABILITY_KEYS` |
| CharacterIndex.CreateSummary | src/lib/preciousdays/data.ts:107-124 | the summary keeps id and element, and defaults an empty name to `未設定`, player to `''`, species to `human`, style to `enchanter`, `updatedAt` to now; hp/mp are the style base (0 if unknown) plus the modifier; wp = passion + affection totals + modifier, missing values 0 |
| CharacterIndex.Filter | src/lib/preciousdays/data.ts:197-202 | a filter keeps the entries that satisfy the test, in their order |
| CharacterIndex.FilterMembers | src/lib/preciousdays/data.ts:198 | an entry is in the filtered list exactly when it is in the list and satisfies the test |
| CharacterIndex.FilterAppend | src/lib/preciousdays/data.ts:197-202 | filtering two lists joined is joining their filtered lists |
| CharacterIndex.FilterPartition | src/lib/preciousdays/data.ts:197-205 | the samples and the normal characters together are a permutation of the index |
| CharacterIndex.FilterNone | src/lib/preciousdays/data.ts:185 | filtering by a test no entry passes gives the empty list |
| CharacterIndex.FilterAll | src/lib/preciousdays/data.ts:185 | filtering by a test every entry passes changes nothing |
| CharacterIndex.SortCorrect | src/lib/preciousdays/data.ts:196-206 | `Array.prototype.sort` with a comparator gives a sorted permutation, and entries with equal keys keep their order |
| CharacterIndex.SortSorted | src/lib/preciousdays/data.ts:196-206 | sorting a list that is already sorted changes nothing |
| CharacterIndex.SortCharacterIndexCorrect | src/lib/preciousdays/data.ts:196-206 | `sortCharacterIndex` returns a permutation of its input in index order: every normal character before every sample, normals newest first, samples by ascending id, ties in input order |
| CharacterIndex.SortCharacterIndexTiers | src/lib/preciousdays/data.ts:197-203 | the first tier holds only normal characters and the second only samples |
| CharacterIndex.SortCharacterIndexOrder | src/lib/preciousdays/data.ts:196-206 | the sorted index is in index order |
| CharacterIndex.SortCharacterIndexPermutation | src/lib/preciousdays/data.ts:196-206 | the sorted index holds the same entries, with the same multiplicities |
| CharacterIndex.SortCharacterIndexStable | src/lib/preciousdays/data.ts:196-206 | within each tier, entries with equal sort keys keep their input order |
| CharacterIndex.SortCharacterIndexOrdered | src/lib/preciousdays/data.ts:196-206 | an index already in order sorts to itself, so the sort is idempotent |
| CharacterIndex.SortCharacterIndexUnique | src/lib/preciousdays/data.ts:196-206 | sorting an index with one entry per id keeps one entry per id |
| CharacterIndex.OrderedSplit | src/lib/preciousdays/data.ts:205 | an ordered index is its normal characters followed by its samples |
| CharacterIndex.FilterOrdered | src/lib/preciousdays/data.ts:185 | removing entries keeps an ordered index ordered |
| CharacterIndex.FindIndex | src/lib/preciousdays/data.ts:153 | `findIndex` by id: the first position holding the id, or none exactly when no entry has it |
| CharacterIndex.Upsert | src/lib/preciousdays/data.ts:153-155 | the new summary is in the result, and the length grows by one exactly when the id was absent |
| CharacterIndex.UpsertOthers | src/lib/preciousdays/data.ts:153-155 | entries with other ids stay in place and in order, and every entry is the new summary or an old one |
| CharacterIndex.UpsertUnique | src/lib/preciousdays/data.ts:153-155 | on an index with one entry per id, the upsert keeps one entry per id, and the entry for the saved id is the new summary |
| CharacterIndex.SaveToIndexCorrect | src/lib/preciousdays/data.ts:151-157 | the index after a save is ordered, has one entry per id, holds the new summary as the one entry for its id, and keeps every entry with another id |
| CharacterIndex.RemoveFromIndex | src/lib/preciousdays/data.ts:184-185 | the entries kept are exactly those with another id |
| CharacterIndex.RemoveFromIndexOrdered | src/lib/preciousdays/data.ts:184-188 | deleting keeps an ordered index ordered, so re-sorting it would change nothing |
| CharacterIndex.RemoveUpsertNew | src/lib/preciousdays/data.ts:184-185 | deleting a record that was just added to an index without that id gives the previous index back |
| CharacterIndex.LastWithId | src/lib/preciousdays/data.ts:241 | the last entry with an id is an entry with that id, and there is none exactly when no entry has it |
| CharacterIndex.DedupeCorrect | src/lib/preciousdays/data.ts:241 | `new Map(...).values()` has one entry per id, an entry for every id, and that entry is the id's last summary |
| CharacterIndex.DedupeFirstSeen | src/lib/preciousdays/data.ts:241 | the ids of `new Map(...).values()`, in order, are the listing's ids each taken once where it first appears (`FirstSeenIds`): a later summary for an id replaces the entry in place and does not move it to the end |
| CharacterIndex.FirstSeenIdsMembers | src/lib/preciousdays/data.ts:241 | `FirstSeenIds` holds exactly the ids that occur in the listing |
| CharacterIndex.RebuildOrderCorrect | src/lib/preciousdays/data.ts:241-242 | the rebuilt index is newest first, has one entry per id, each entry is the last summary for its id, and no id is lost |
| Records.ReadNum | src/lib/preciousdays/data.ts:98 | a number read from parsed JSON is never NaN |
| Records.ReadNumJson | src/lib/preciousdays/data.ts:98 | a number field reads back as written, with NaN as null |
| Records.ReadTextJson | src/lib/preciousdays/data.ts:98 | an optional string field reads back as written |
| Records.ReadModifierJson | src/lib/preciousdays/data.ts:98 | a `{ modifier }` object reads back as written |
| Records.ReadScoreJson | src/lib/preciousdays/data.ts:98 | an ability score reads back as written |
| Records.ReadAbilitiesJson | src/lib/preciousdays/data.ts:98 | the six ability scores read back as written |
| Records.ReadSkillJson | src/lib/preciousdays/data.ts:98 | a skill reads back as written |
| Records.ReadSkillsJson | src/lib/preciousdays/data.ts:98 | the skill list reads back as written |
| Records.ReadItemJson | src/lib/preciousdays/data.ts:98 | an item reads back as written |
| Records.ReadItemsJson | src/lib/preciousdays/data.ts:98 | the item list reads back as written |
| Records.ReadSlotJson | src/lib/preciousdays/data.ts:98 | an equipment slot reads back as written, and an empty slot as empty |
| Records.ReadEquipmentJson | src/lib/preciousdays/data.ts:98 | the six equipment slots read back as written |
| Records.ReadCombatJson | src/lib/preciousdays/data.ts:98 | `combatValues` and `specialChecks` read back as written |
| Records.RecordKeysDistinct | src/lib/preciousdays/data.ts:147 | the record's top-level member names are distinct |
| Records.CharacterKeysDistinct | src/lib/preciousdays/data.ts:147 | the members a record is written with have distinct keys |
| Records.CharacterMember | src/lib/preciousdays/data.ts:98 | each member of a written record reads back as written |
| Records.CharacterMembers | src/lib/preciousdays/data.ts:98 | the eighteen members of a written record, one by one |
| Records.ReadCharacterFrom | src/lib/preciousdays/data.ts:98 | any object whose members are those of a record reads as that record in stored form |
| Records.ReadCharacterParts | src/lib/preciousdays/data.ts:98 | an object whose members each read back as a record's fields reads as that record |
| Records.ReadCharacterJson | src/lib/preciousdays/data.ts:98 | reading a written record gives it back with NaN turned into null |
| Records.ParseRecordBytes | src/lib/preciousdays/data.ts:147 | `JSON.parse(JSON.stringify(record))` gives the stored form of the record |
| Records.SummaryKeysDistinct | src/lib/preciousdays/data.ts:157 | the members an index entry is written with have distinct keys |
| Records.ReadSummaryJson | src/lib/preciousdays/data.ts:131 | a written index entry reads back as itself |
| Records.ReadSummaryFrom | src/lib/preciousdays/data.ts:131 | any object with an entry's members reads as that entry |
| Records.ReadSummaries | src/lib/preciousdays/data.ts:131 | a successfully read list of entries is as long as the JSON array |
| Records.ReadSummariesJson | src/lib/preciousdays/data.ts:131 | a written list of entries reads back as itself |
| Records.ParseIndexBytes | src/lib/preciousdays/data.ts:157 | the index written by `JSON.stringify` parses back to the same entries |
| Storage.LookupKey | src/lib/preciousdays/data.ts:137-140 | `getCharacterById` reads the id itself when it contains `/`, else `preciousdays/<id>.json` |
| Storage.IndexKeyIsRecordKey | src/lib/preciousdays/data.ts:24-26 | the id `index` has the index file as its record key |
| Storage.RecordKeyInjective | src/lib/preciousdays/data.ts:148 | different ids have different record keys |
| Storage.RecordKeyNotIndex | src/lib/preciousdays/data.ts:148 | every id other than `index` has a record key distinct from the index file |
| Storage.LegacyNotRecord | src/lib/preciousdays/data.ts:166-167 | a `.bin` key is never a `.json` record key |
| Storage.LegacyNotIndex | src/lib/preciousdays/data.ts:167 | a `.bin` key is never the index file |
| Storage.GetCharacterByRawKey | src/lib/preciousdays/data.ts:87-103 | only a present key whose blob decrypts and parses as a record yields that record; a missing key or any failure is null |
| Storage.GetAllCharacters | src/lib/preciousdays/data.ts:128-135 | the stored index, or `[]` when the index file is missing or does not parse |
| Storage.SameBlobSameRead | src/lib/preciousdays/data.ts:87-103 | a read depends only on the blob under its key |
| Storage.GetAllCharactersWritten | src/lib/preciousdays/data.ts:128-135 | an index written to the bucket reads back as the same entries |
| Storage.Saved | src/lib/preciousdays/data.ts:143-144 | the saved record is the given one with `updatedAt` replaced by the save time |
| Storage.WriteRecord | src/lib/preciousdays/data.ts:147-148 | writing a record adds or replaces its record key and leaves every other key untouched |
| Storage.WriteIndex | src/lib/preciousdays/data.ts:157 | writing the index adds or replaces the index key and leaves every other key untouched |
| Storage.AfterSaveIs | src/lib/preciousdays/data.ts:147-157 | a save is the record write followed by the index write of the upserted, sorted index |
| Storage.AfterSaveFrame | src/lib/preciousdays/data.ts:142-158 | a save touches only the record key and the index key |
| Storage.SaveThenRead | src/lib/preciousdays/data.ts:137-148 | a saved record reads back, by key and by id, stamped with the save time whatever `updatedAt` the caller passed |
| Storage.SavedBlob | src/lib/preciousdays/data.ts:147-148 | after a save, the record key holds `IV \|\| AES-CBC(JSON of the stamped record)` |
| Storage.RecordBlobReads | src/lib/preciousdays/data.ts:87-103 | a blob encrypted from a record reads back as that record in stored form |
| Storage.SaveCharacterIndex | src/lib/preciousdays/data.ts:151-157 | after a save, the index is ordered and has one entry per id; the saved record's summary, stamped with the save time, is its id's entry; every other entry is kept |
| Storage.AfterDelete | src/lib/preciousdays/data.ts:163-189 | a delete leaves exactly the old keys minus both record keys, plus the index |
| Storage.DeleteCharacterCorrect | src/lib/preciousdays/data.ts:163-189 | after a delete, neither record key holds anything and no other record is touched; the index lost exactly that id's entries, order kept, not re-sorted |
| Storage.RebuildStep | src/lib/preciousdays/data.ts:223-238 | one listed key adds at most one summary |
| Storage.RebuildStepFound | src/lib/preciousdays/data.ts:228-237 | a readable record with an id adds its summary, and is saved again exactly when it was found under a key other than its own |
| Storage.RebuildScan | src/lib/preciousdays/data.ts:223-239 | after `n` listed keys, at most `n` summaries have been collected |
| Storage.Rebuilt | src/lib/preciousdays/data.ts:211-246 | a listing without contents returns `[]` and writes nothing; otherwise the index file is written |
| Storage.RebuiltStoresIndex | src/lib/preciousdays/data.ts:243-245 | the index the rebuild returns is the one it stores |
| Storage.RebuiltIndexCorrect | src/lib/preciousdays/data.ts:241-245 | the rebuilt index is newest first with one entry per id; each entry is the last summary collected for it; no collected id is missing |
| Storage.LegacyScanned | src/lib/preciousdays/data.ts:225-226 | a legacy `.bin` key is scanned |
| Storage.RecordScanned | src/lib/preciousdays/data.ts:225-226 | a record key other than the index is scanned |
| Storage.StepMigrates | src/lib/preciousdays/data.ts:233-237 | scanning a legacy key whose record carries its id writes the record under its own key; the legacy copy stays unless the corrected rebuild removes it |
| Storage.MigratedFrame | src/lib/preciousdays/data.ts:236 | after a migration the record key holds the saved blob, and the legacy key is kept or removed as chosen |
| Storage.StepSaves | src/lib/preciousdays/data.ts:234-237 | a record found under another key leaves the store as `saveCharacter` does, minus that key when moving |
| Storage.StepReadsInPlace | src/lib/preciousdays/data.ts:234-235 | scanning a record under its own key changes no stored object |
| Storage.StepSkipped | src/lib/preciousdays/data.ts:224-229 | a listed key is skipped, with nothing read, changed or moved, when it is empty, is `index.json`, or ends in neither `.json` nor `.bin`; and so is a record that does not decode (missing, wrong key or unreadable) or has an empty `id` |
| Storage.ScanOne | src/lib/preciousdays/data.ts:223 | a one-key listing is scanned in one step |
| Storage.ScanTwo | src/lib/preciousdays/data.ts:223 | a two-key listing is scanned in two steps, in listing order |
| Storage.IndexWriteKeepsRecord | src/lib/preciousdays/data.ts:243 | writing the index leaves both record keys of every other id as they were |
| Storage.RebuildOfLegacy | src/lib/preciousdays/data.ts:233-237 | rebuilding over a legacy key saves the record under its own key; the legacy copy is kept, or removed only by the corrected rebuild |
| Storage.RebuildOverwritesLaterEdit | src/lib/preciousdays/data.ts:233-237 | as written: a legacy copy left by an earlier rebuild overwrites a later edit under the record key |
| Storage.RebuildOverwritesLaterEditRecordFirst | src/lib/preciousdays/data.ts:233-237 | as written: the overwrite also happens when the listing names the record before the legacy copy |
| Storage.MovingRebuildKeepsLaterEdit | src/lib/preciousdays/data.ts:233-237 | corrected: once the legacy copy is removed, a later rebuild leaves the edited record as it is |
| Storage.SaveKeepsLegacy | src/lib/preciousdays/data.ts:142-158 | a save leaves the legacy key of its own id as it was |
| Storage.RebuildThenSave | src/lib/preciousdays/data.ts:233-237 | a rebuild followed by an edit leaves the edit under the record key, and keeps the stale legacy copy unless the rebuild moved it |
| Storage.Bucket.constructor | src/lib/preciousdays/data.ts:15-26 | the bucket starts with the given objects and the key derived from the secret |
| Storage.Bucket.SaveCharacter | src/lib/preciousdays/data.ts:142-158 | the record write, then the in-place upsert (`index[i] = summary` or `push`) and the index write, leave the store as the save specification says |
| Storage.Bucket.DeleteCharacter | src/lib/preciousdays/data.ts:163-189 | the loop over both record keys, ignoring missing ones, then the filtered index write, leave the store as the delete specification says |
| Storage.Bucket.RebuildIndex | src/lib/preciousdays/data.ts:211-246 | the scan loop, with in-place pushes and migrations, followed by the dedupe, sort and index write, gives the store and the result of the rebuild specification, as written |
| CharacterActions.AbilityTotal | src/hooks/preciousdays/useCharacterActions.ts:78-82 | the total is `floor((base + bonus) / 3)` plus the style bonus, the element bonus and the other modifier, stated by its floor bounds |
| CharacterActions.UpdateAbilities | src/hooks/preciousdays/useCharacterActions.ts:55-90 | the `forEach` over `ABILITY_KEYS` gives the recomputed record |
| CharacterActions.RecomputedAbilitiesCorrect | src/hooks/preciousdays/useCharacterActions.ts:57-86 | the record is unchanged when species, style or element is empty; it fails exactly when a table lookup would throw; otherwise each ability gets bonus and other modifier with missing ones 0, and the total formula; base, adjusted and all else stay |
| CharacterActions.RecomputedAbilitiesIdempotent | src/hooks/preciousdays/useCharacterActions.ts:68-86 | recomputing twice gives what recomputing once gives |
| CharacterActions.AbilitiesExtensional | src/hooks/preciousdays/useCharacterActions.ts:68 | two ability sets agreeing on all six keys are equal |
| CharacterActions.TableBonusesTotal | src/constants/preciousdays.ts:70-140 | a style's bonuses add up to 3 over the six abilities, and an element's to 1 |
| CharacterActions.AbilityTotalRange | src/hooks/preciousdays/useCharacterActions.ts:79-82 | with a bonus the cap check accepts and no other modifier, every total lies in [1, 6] |
| CharacterActions.SafeBonus | src/hooks/preciousdays/useCharacterActions.ts:103 | NaN becomes 0, otherwise `max(0, val)`, so the result is never negative |
| CharacterActions.OtherBonusesSplit | src/hooks/preciousdays/useCharacterActions.ts:109-111 | the other abilities' bonuses plus this one's are all six bonuses |
| CharacterActions.OtherBonusesUnchanged | src/hooks/preciousdays/useCharacterActions.ts:109-111 | changing ability `a` does not change the other bonuses of `a` |
| CharacterActions.BonusCheck | src/hooks/preciousdays/useCharacterActions.ts:113-122 | a reported error names the ability being changed |
| CharacterActions.BonusChangeCorrect | src/hooks/preciousdays/useCharacterActions.ts:103-128 | cap error exactly when base + bonus > 12 (missing species = human); sum error exactly when base + bonus <= 12 and all bonuses exceed 5; no error exactly otherwise; the new bonus is stored in every case |
| CharacterActions.OtherModifierChanged | src/hooks/preciousdays/useCharacterActions.ts:134-147 | the other modifier of one ability is set, and zero-defaulted by the recomputation when the record is complete |
| CharacterActions.AddSkill | src/hooks/preciousdays/useCharacterActions.ts:150-161 | one skill, `level 1` with empty name and effect, is appended; the rest of the record is unchanged |
| CharacterActions.RemoveSkill | src/hooks/preciousdays/useCharacterActions.ts:164-190 | skill `s1` is never removed; a skill with input is removed only when confirmed; otherwise exactly the element at the index goes, and nothing else changes |
| CharacterActions.RemoveSkillKeepsProtected | src/hooks/preciousdays/useCharacterActions.ts:168-185 | no skill with id `s1` is ever lost, and at most one skill goes |
| CharacterActions.NewSkillEmpty | src/hooks/preciousdays/useCharacterActions.ts:172-175 | a new skill counts as having no input |
| CharacterActions.RemoveAddedSkill | src/hooks/preciousdays/useCharacterActions.ts:150-190 | removing a skill that was just added needs no confirmation and gives the record back |
| CharacterActions.EditSkill | src/hooks/preciousdays/useCharacterActions.ts:197 | `{ ...skill, [field]: value }` changes only the named field |
| CharacterActions.UpdateSkill | src/hooks/preciousdays/useCharacterActions.ts:193-202 | only the addressed skill changes, and every other skill and field stays |
| CharacterActions.AddItem | src/hooks/preciousdays/useCharacterActions.ts:205-217 | one item, `weight 1` and `quantity 1` with empty name and notes, is appended; the rest is unchanged |
| CharacterActions.RemoveItem | src/hooks/preciousdays/useCharacterActions.ts:220-229 | `splice(i, 1)` on a copy removes exactly the element at `i`; an index past the end removes nothing |
| CharacterActions.RemoveAddedItem | src/hooks/preciousdays/useCharacterActions.ts:205-229 | removing an item that was just added gives the record back |
| CharacterActions.EditItem | src/hooks/preciousdays/useCharacterActions.ts:236 | `{ ...item, [field]: value }` changes only the named field |
| CharacterActions.UpdateItem | src/hooks/preciousdays/useCharacterActions.ts:232-241 | only the addressed item changes, and every other item and field stays |
| CharacterActions.CombatModifierChanged | src/hooks/preciousdays/useCharacterActions.ts:244-258 | the modifier of one combat or special key is set, and every other key and field stays |
| CharacterActions.EquipmentUpdated | src/hooks/preciousdays/useCharacterActions.ts:261-272 | one field of one slot is set (an empty slot becomes an item with just that field); other slots and fields stay |
| CharacterActions.EditEquipmentOnlyField | src/hooks/preciousdays/useCharacterActions.ts:267 | editing one equipment field leaves the other eight as they were |
| CharacterActions.ResourceUpdated | src/hooks/preciousdays/useCharacterActions.ts:275-283 | the modifier of HP, MP or WP is set, and the other two and all other fields stay |
| CharacterActions.ClampGl | src/hooks/preciousdays/useCharacterActions.ts:288 | `max(0, min(val, 6))` lies in [0, 6]: it keeps values in range, gives 0 below and 6 above; NaN stays NaN |
| CharacterActions.ClampGlIdempotent | src/hooks/preciousdays/useCharacterActions.ts:288 | clamping twice is clamping once |
| CharacterActions.GlUpdated | src/hooks/preciousdays/useCharacterActions.ts:286-292 | GL becomes the clamped value, and nothing else changes |
| CharacterActions.AssignId | src/hooks/preciousdays/useCharacterActions.ts:302-307 | a record without an id gets the generated one; a record with an id is sent unchanged |
| EditForm.InitialState | src/app/preciousdays/edit/EditForm.tsx:35-49 | a clone gets a fresh id, password `''` and the name `"<name> (コピー)"`; existing data is used unchanged; no data gives the blank template with a fresh id |
| EditForm.SheetMode | src/app/preciousdays/edit/EditForm.tsx:142 | the sheet's mode is `edit` or `create`, and `edit` exactly when a key was given and the form is not a clone |
| EditForm.CloneKeepsFields | src/app/preciousdays/edit/EditForm.tsx:39-44 | a clone keeps every field but id, password and name, and its name ends with the copy suffix |
| EditForm.FormScore | src/app/preciousdays/edit/EditForm.tsx:73-84 | the form's score keeps the bonus as stored, makes a missing other modifier 0, drops base and adjusted; the total is a number exactly when the bonus is |
| EditForm.FormUpdateAbilities | src/app/preciousdays/edit/EditForm.tsx:60-87 | the form's `forEach` over `ABILITY_KEYS` gives the form's recomputed record |
| EditForm.FormAgreesWithActions | src/app/preciousdays/edit/EditForm.tsx:72-85 | the form and the shared updater agree on every total whose bonus is a number; for a missing bonus the form's total is NaN and the shared updater's is a number |
| EditForm.SubmitGuard.constructor | src/app/preciousdays/edit/EditForm.tsx:53 | the form starts with no submit in flight |
| EditForm.SubmitGuard.Begin | src/app/preciousdays/edit/EditForm.tsx:90-102 | nothing is sent while a submit is in flight; otherwise the record is posted and the form is marked busy |
| EditForm.SubmitGuard.Finish | src/app/preciousdays/edit/EditForm.tsx:104-113 | the form is always free again afterwards, and only a successful save moves to `/preciousdays/edit?key=<id>` |
| EditPage.TargetId | src/app/preciousdays/edit/page.tsx:55-56 | the target is `key` when set, else `clone`, and it is set exactly when one of them is |
| EditPage.Render | src/app/preciousdays/edit/page.tsx:50-96 | no target gives the blank form; not found exactly when the target does not load; a redirect goes to the list; a form carries the key, `isClone = !!clone` and the loaded record |
| EditPage.Serve | src/app/preciousdays/edit/page.tsx:55-95 | the step-by-step handler, with `let initialData` and its early returns, renders what `Render` specifies |
| EditPage.RenderGuard | src/app/preciousdays/edit/page.tsx:83-92 | a redirect happens exactly when `key` names a loaded record with a non-empty password and the cookie `edit_allowed_<key>` is not `'true'` |
| EditPage.CloneNeverGuarded | src/app/preciousdays/edit/page.tsx:83-95 | a clone-only request is never redirected, and its form is a clone of the loaded record |
| EditPage.EditModeForKeyOnly | src/app/preciousdays/edit/EditForm.tsx:54 | the rendered form is in edit mode exactly for a `key` without `clone`; it then edits the record loaded for that key unchanged, with the edit cookie when it has a password; a request with `clone` never gets edit mode |
| EditPage.PageMetadata | src/app/preciousdays/edit/page.tsx:19-48 | the default title with no target, the not-found title when the lookup fails, else `characterName \|\| 'プレシャスデイズ'` with the site suffix and no indexing |
| EditPage.MetadataMatchesPage | src/app/preciousdays/edit/page.tsx:61-81 | when there is a target, the not-found title goes exactly with the not-found view |
| VerifyPassword.Fetch | src/app/api/verify_password/route.ts:29-43 | the get fails exactly for a missing key, and otherwise returns the stored bytes |
| VerifyPassword.StoredPassword | src/app/api/verify_password/route.ts:63-64 | reading `.password` fails exactly on `null`, and is the member's value on an object |
| VerifyPassword.Authorize | src/app/api/verify_password/route.ts:52-105 | once the bytes are in hand the answer is 200, 401 or 500; success and the cookie go exactly with 200, and the cookie is `edit_allowed_<id>` |
| VerifyPassword.Verify | src/app/api/verify_password/route.ts:20-106 | the status lies in {200, 400, 401, 404, 500}; unreadable body is 500; no id is 400 before any read; get error is 404; no body is 500; success and the cookie go exactly with 200 |
| VerifyPassword.Post | src/app/api/verify_password/route.ts:20-106 | the handler's early returns and `let isAuthorized` flag give the response `Verify` specifies |
| VerifyPassword.AuthorizeCorrect | src/app/api/verify_password/route.ts:53-98 | a decrypt or parse failure, or a `null` record, is 500; otherwise 200 exactly when the stored password is falsy or `===` the submitted one, else 401 `パスワードが違います` |
| VerifyPassword.NoPasswordAuthorizesAll | src/app/api/verify_password/route.ts:70-72 | unless the stored password is truthy, every submitted password gets the same answer |
| VerifyPassword.GrantOpensEditPage | src/app/api/verify_password/route.ts:84-90 | the cookie granted (`'true'`, one day, `httpOnly`, `sameSite` lax) is the one the edit page accepts, so the page for that key is not redirected |
| VerifyPassword.SavedRecordNotFound | src/app/api/verify_password/route.ts:29-43 | as written: a record saved by `saveCharacter` with no `<id>.bin` copy gets 404 for every password, although the edit page loads it |
| VerifyPassword.SavedRecordVerified | src/app/api/verify_password/route.ts:66-97 | corrected: with the record read where it is saved, the answer is 200 exactly when the record has no password or the submitted one equals it, else 401 |
| VerifyPassword.CorrectedReadsRecord | src/lib/preciousdays/data.ts:137-140 | the corrected route decides on the blob under the id's record key |
| VerifyPassword.AuthorizeSaved | src/app/api/verify_password/route.ts:53-97 | on a blob written by a save, 200 exactly when the record has no password or the submitted one equals it, else 401 |
| VerifyPassword.AuthorizeText | src/app/api/verify_password/route.ts:63-97 | on an object whose password is a string or absent: 200 exactly for a falsy or equal password, else 401 |
| VerifyPassword.DecideText | src/app/api/verify_password/route.ts:67-97 | the `isAuthorized` decision on a string or absent stored password: 200 exactly for a falsy or equal password, else 401 |
| CombatSection.MagicTypeOf | src/components/preciousdays/CombatSection.tsx:47 | a mapped style gives its magic type; an inherited name such as `toString` finds an `Object.prototype` member, which is none of the three types, exactly when the result is none; any other style defaults to `付与術式` |
| CombatSection.Bases | src/components/preciousdays/CombatSection.tsx:39-60 | dodge = mystic + agility + 7, defense = physical, lore = intellect, with missing totals 0 |
| CombatSection.MagicBaseByStyle | src/components/preciousdays/CombatSection.tsx:47-52 | magic = physical + agility for `付与術式` (and unknown styles that are not inherited names), intellect + passion for `詠唱術式`, mystic + affection for `神性術式`, per style, and 0 for an inherited name, which matches none of the labels |
| CombatSection.CalculateEquipBonus | src/components/preciousdays/CombatSection.tsx:63-85 | the `forEach` over the six slots gives the equipment bonus specification |
| CombatSection.EquipBonusSlots | src/components/preciousdays/CombatSection.tsx:69-81 | the bonus is the six slots' contributions added up, empty slots adding nothing |
| CombatSection.BonusStep | src/components/preciousdays/CombatSection.tsx:69-81 | each slot adds its own contribution to the running total |
| CombatSection.NoBonusOutsideEnchantment | src/components/preciousdays/CombatSection.tsx:76-81 | magic and damage get no equipment bonus outside `付与術式`, and the special checks never get one |
| CombatSection.EmptyEquipmentNoBonus | src/components/preciousdays/CombatSection.tsx:71 | with every slot empty, the bonus is 0 |
| CombatSection.RowTotal | src/components/preciousdays/CombatSection.tsx:96-99 | base + (special ? 0 : equip) + modifier; a NaN modifier counts as 0 (and `null` as 0), while a missing one makes the total NaN |
| CombatSection.SpecialRowsIgnoreEquipment | src/components/preciousdays/CombatSection.tsx:99 | the special checks ignore the equipment, so their total is lore + modifier |
| CombatSection.DamageTotal | src/components/preciousdays/CombatSection.tsx:171-175 | outside `付与術式` the damage total is the modifier alone (0 if missing) |
| CombatSection.DamageBonusOnlyEnchantment | src/components/preciousdays/CombatSection.tsx:76-81 | the damage equipment bonus is 0 outside `付与術式` |
| WeightSection.WeightLimit | src/components/preciousdays/WeightSection.tsx:10-14 | the species' physical base (0 if unknown) plus the physical bonus (0 if missing) |
| WeightSection.FiguresOf | src/components/preciousdays/WeightSection.tsx:10-30 | the section shows the weight limit, the carried weight, and overweight exactly when the carried weight is above the limit |
| WeightSection.RenderAsWritten | src/components/preciousdays/WeightSection.tsx:9-11 | the section as written shows figures exactly when a `char` prop is passed, and then its verdict is the character's overweight check |
| WeightSection.RenderAsIntended | src/components/preciousdays/ItemSection.tsx:220-225 | read from the props the callers pass, the section shows figures exactly when all four are given |
| WeightSection.CallersGetNoFigures | src/components/preciousdays/EquipmentSection.tsx:341-346 | with the props the callers pass and no `char`, the section as written throws |
| WeightSection.IntendedMatchesCharacter | src/components/preciousdays/WeightSection.tsx:9-30 | on the props taken from a character, the intended section shows what the written one shows for that character: its weight limit, carried weight and overweight verdict |
| WeightSection.WeightStep | src/components/preciousdays/WeightSection.tsx:17-20 | each slot adds its weight to the running equipment weight |
| WeightSection.EquipWeightSlots | src/components/preciousdays/WeightSection.tsx:17-20 | the equipment weight is the six slot weights added up, non-numbers and empty slots 0 |
| WeightSection.ItemWeightAppend | src/components/preciousdays/WeightSection.tsx:21-25 | the item weight of two lists joined is the sum of their item weights |
| WeightSection.ItemWeightAddRemove | src/components/preciousdays/WeightSection.tsx:21-25 | adding an item adds `weight × quantity` (exactly 1 for a new item); removing one takes off exactly its own load |
| WeightSection.ItemWeightNonNegative | src/components/preciousdays/WeightSection.tsx:21-25 | items with non-negative loads never weigh less than 0 |
| EquipmentSection.SlotRowsExact | src/components/preciousdays/EquipmentSection.tsx:21-28 | the table has exactly the six slots, each once, in the order `rHand`, `lHand`, `head`, `body`, `accessory`, `guardian` |
| EquipmentSection.StatsUpToAgree | src/components/preciousdays/EquipmentSection.tsx:302-311 | the summed dodge and defense modifiers (and, under `付与術式`, hit modifiers) equal the combat section's equipment bonuses |
| EquipmentSection.StatsWeight | src/components/preciousdays/EquipmentSection.tsx:302-311 | the summed equipment weight equals the weight section's |
| EquipmentSection.SlotStatsAgree | src/components/preciousdays/EquipmentSection.tsx:304-308 | one slot's row values are its weight and its combat bonuses |
| EquipmentSection.TotalsAgreeWeight | src/components/preciousdays/EquipmentSection.tsx:313-328 | the table's carried weight, its limit, and its `isOver` (`totalWeight > limit`, strictly) are exactly the weight section's |
| EquipmentSection.TotalsAgreeBonus | src/components/preciousdays/EquipmentSection.tsx:293-311 | the table's dodge, defense and (under `付与術式`) hit totals are the combat section's bonuses |
| EquipmentSection.EquipmentRow.constructor | src/components/preciousdays/EquipmentSection.tsx:73-80 | the remembered and local texts start as the stored ones (`\|\| ''`) |
| EquipmentSection.EquipmentRow.Render | src/components/preciousdays/EquipmentSection.tsx:83-94 | at a render, each cell whose stored value changed has both copies replaced; the other cells' local text is kept |
| EquipmentSection.EquipmentRow.SyncField | src/components/preciousdays/EquipmentSection.tsx:83-86 | one render-time check replaces both copies of one cell only when its stored value changed |
| EquipmentSection.EquipmentRow.Type | src/components/preciousdays/EquipmentSection.tsx:78-80 | typing changes only that cell's local copy |
| EquipmentSection.EquipmentRow.Blur | src/components/preciousdays/EquipmentSection.tsx:97-105 | leaving a cell hands the local value on exactly when it differs from the stored one, and never when the row is in sync |
| EquipmentSection.CommitStoresText | src/components/preciousdays/EquipmentSection.tsx:97-105 | a committed edit stores the typed text in that cell of the slot |
| ResourceSection.HpBaseShown | src/components/preciousdays/ResourceSection.tsx:124 | the HP base is the style's HP base, 0 when the style is empty or unknown |
| ResourceSection.MpBaseShown | src/components/preciousdays/ResourceSection.tsx:137 | the MP base is the style's MP base, 0 when the style is empty or unknown |
| ResourceSection.TotalsMatchIndex | src/components/preciousdays/ResourceSection.tsx:116-155 | the HP, MP and WP totals on the cards are those the index summary records |
| ResourceSection.ResourceUpdateMovesOneCard | src/components/preciousdays/ResourceSection.tsx:128-155 | setting one modifier moves only that card's total, to base + new modifier |
| ResourceSection.GlDynamicStyle | src/components/preciousdays/ResourceSection.tsx:37-56 | a non-GL card gets no style; the GL mix is `10 + 13 × level`; solid border and white text exactly from level 4; glow exactly from level 6 |
| ResourceSection.GlStyleAfterUpdate | src/components/preciousdays/ResourceSection.tsx:42-54 | after the GL clamp the mix stays within 10% to 88%, and the glow comes exactly at level 6, with a solid border |
| NumberInput.InitialText | src/components/ui/NumberInput.tsx:15-17 | the first text is `'0'` for `undefined`, `null` or NaN, and always stands for the value |
| NumberInput.Resynced | src/components/ui/NumberInput.tsx:19-26 | the effect leaves the text exactly when it already stands for the value (NaN as 0), and afterwards the text always stands for it |
| NumberInput.AcceptedValue | src/components/ui/NumberInput.tsx:35-41 | an accepted string reports 0 for `''` and `'-'`, and otherwise its signed decimal value |
| NumberInput.BlurText | src/components/ui/NumberInput.tsx:44-46 | blur shows `value.toString()`, `'NaN'` for NaN, which stands for the value |
| NumberInput.ParseNaNText | src/components/ui/NumberInput.tsx:44-46 | `parseInt('NaN')` is NaN |
| NumberInput.NumberField.constructor | src/components/ui/NumberInput.tsx:15-17 | the field opens with the initial text |
| NumberInput.NumberField.Effect | src/components/ui/NumberInput.tsx:19-26 | the effect leaves the text as `Resynced` specifies |
| NumberInput.NumberField.HandleChange | src/components/ui/NumberInput.tsx:28-42 | a string outside `^-?\d*$` changes nothing and reports nothing; any other string is shown as typed and its value reported |
| NumberInput.NumberField.Blur | src/components/ui/NumberInput.tsx:44-46 | blur sets the text to `value.toString()` |
| NumberInput.TypingSurvivesEcho | src/components/ui/NumberInput.tsx:19-41 | when the parent echoes the reported value back, the effect keeps what was typed (`''`, `'-'`, leading zeros) |
| NumberInput.ResyncIdempotent | src/components/ui/NumberInput.tsx:19-26 | running the effect twice is running it once |
| NumberInput.BlurThenEffect | src/components/ui/NumberInput.tsx:19-46 | after a blur the effect has nothing to change |
| NumberInput.FilterExamples | src/components/ui/NumberInput.tsx:31 | `''`, `'-'`, `'-12'` and `'007'` pass the filter; `'+5'`, `'1.5'`, `'--1'` and `'1-'` are refused |
| LoginNotice.OrElse | src/app/actions/auth.ts:10 | `a \|\| b` on a header value: an empty or absent value gives `b` |
| LoginNotice.ClientIp | src/app/actions/auth.ts:9-10 | the first comma piece of `x-forwarded-for`, untrimmed, when non-empty; else `x-real-ip`; else `127.0.0.1`; so never empty |
| LoginNotice.ExcludeList | src/app/actions/auth.ts:12-13 | the exclude list is `EXCLUDE_IPS` (`''` when unset) split on commas, each piece trimmed |
| LoginNotice.NotifyLoginIp | src/app/actions/auth.ts:6-34 | skipped exactly when the address is on the exclude list; otherwise an email naming the address, the device (`Unknown Device` by default) and the time |
| LoginNotice.NoExcludeListAlwaysNotifies | src/app/actions/auth.ts:12-18 | with no exclude list, every login is reported |
| LoginNotice.PaddedAddressNeverExcluded | src/app/actions/auth.ts:10-15 | an address with whitespace at its start or end never matches a trimmed entry |
| LoginNotice.TrimNotPadded | src/app/actions/auth.ts:13 | no trimmed string equals a string padded with whitespace |
| LoginNotice.ListedAddressSkipped | src/app/actions/auth.ts:10-18 | an address written anywhere in the list, spaces around it or not, is skipped |
| Header.SystemKey | src/components/Header/Header.tsx:12-13 | `segments[1]` exists exactly when the path contains `/` |
| Header.Find | src/components/Header/Header.tsx:14 | `SYSTEM_DATA.find` returns a listed system with the key, or nothing exactly when none has it |
| Header.MainTitle | src/components/Header/Header.tsx:14-15 | the `preciousdays` path gives that system's title |
| Header.SubTitle | src/components/Header/Header.tsx:17-27 | edit title exactly for `/edit` with `key`; create title exactly for `/edit` without it; view title exactly for a non-`/edit` path containing `/view`; list title exactly otherwise |
| Header.Titles | src/components/Header/Header.tsx:12-27 | the component's `let subTitle` assignments give `MainTitle` and `SubTitle` |
| Header.MainTitleConstant | src/components/Header/Header.tsx:14-15 | with one system titled as the default, every path shows `プレシャスデイズ` |
| Header.SilverMarksForms | src/components/Header/Header.tsx:19-33 | `theme-silver` applies exactly to the edit and create screens |
| Header.EditBeforeView | src/components/Header/Header.tsx:19-27 | `/edit` wins over `/view`: examples of the three outcomes |
| Header.IncludesAt | src/components/Header/Header.tsx:25 | a string found at some position is included |
| Header.NotIncludesShort | src/components/Header/Header.tsx:25 | a string cannot include a pattern whose second character never occurs in it |
| Header.SplitHasSeparator | src/components/Header/Header.tsx:12-13 | a split has a second piece exactly when the separator occurs |

## Left out

- I/O and the network: the R2 client (`R2.send`, `getFromR2`, `saveToR2`) is the `objects` map of `Storage.Bucket`. The bucket listing of `rebuildIndex` is a parameter (`None` for a listing without contents). The verify route's get is the `Fetched` parameter. Cookies, `redirect` and `NextResponse` are return values.
- Concurrency: the read-modify-write of `index.json` is not locked in the source. Only sequential operations are modelled.
- Randomness and clocks: the IVs (`crypto.randomBytes`), the generated UUIDs (`freshId`) and `new Date()` (`now`) are parameters. One clock reading serves a whole rebuild, including the `saveCharacter` calls inside it, which read the clock again in the source.
- Cryptography: AES-256's block function is a keyed permutation standing in for AES, because AES's internals are out of scope. CBC chaining, PKCS#7 padding and the IV layout are modelled. The SHA-256 digest of `ENCRYPTION_KEY` is the 32-byte `Key` parameter.
- JSON and UTF-8: `JSON.stringify`, `JSON.parse` and the UTF-8 conversions are replaced by a byte coding of JSON trees with the same round trip. Their exact text is not modelled.
- Reading JSON: a member that holds a value of another JSON type than expected reads as absent. The source would carry the foreign value along, for example a numeric name. Among duplicate members, the first one found is used.
- Storage.GetAllCharacters: an index file that parses as something other than an array of entries reads as `[]`. The source returns it as it is, and the caller then fails.
- Numbers: number fields are integers, or `undefined`/`null`/NaN. Fractions, infinities and floating-point rounding are left out, because every stored value comes from an integer input.
- Strings.StringToNumber: a literal that reads as a fraction (`"1.5"`) or as `±Infinity` gives NaN here, while the source gives that non-integer number. Integers beyond 2^53 are exact here, where the source rounds them. A damage text is the only string read this way, and the figures it feeds are integers.
- Strings.TextToNumber: carries the same limits as `Strings.StringToNumber`, since it only adds the `undefined` case.
- Inherited names: the rule tables are object literals, so a species or style such as `"constructor"`, `"toString"` or `"__proto__"` finds an `Object.prototype` member there. `CombatSection.MagicTypeOf` models this. Where the source then reads a field of that member and throws a `TypeError`, the model gives 0 instead, on the lines below.
- GameData.SpeciesBaseOrZero: gives 0 for an inherited name, where `SPECIES_DATA[k]?.abilities.physical` and `?.abilities[a]` throw (WeightSection.tsx:11, EquipmentSection.tsx:320, useCharacterActions.ts:106).
- GameData.HpBaseOrZero: gives 0 for an inherited name, where `STYLE_DATA[k]?.hp.base` throws (data.ts:117, ResourceSection.tsx:124).
- GameData.MpBaseOrZero: gives 0 for an inherited name, where `STYLE_DATA[k]?.mp.base` throws (data.ts:118, ResourceSection.tsx:137).
- WeightSection.WeightLimit: uses `GameData.SpeciesBaseOrZero`, so for an inherited species it is the physical bonus alone, where the source's render throws. The same holds for `EquipmentSection.SectionTotals`.
- ResourceSection.HpBaseShown: uses `GameData.HpBaseOrZero`, so it shows 0 for an inherited style, where the source's render throws.
- ResourceSection.MpBaseShown: uses `GameData.MpBaseOrZero`, so it shows 0 for an inherited style, where the source's render throws.
- CharacterActions.BonusCheck: uses base 0 for an inherited species, where the source's handler throws before it stores the bonus. The same holds for `CharacterActions.BonusChangeCorrect`.
- CharacterActions.BonusChangeCorrect: states the three outcomes with base 0 for an inherited species. The source throws there.
- CharacterIndex.CreateSummary: computes hp/mp from a base of 0 for an inherited style. In the source `saveCharacter` throws after writing the record and before writing the index, and `rebuildIndex` throws before writing any index. `Storage.AfterSave` and `Storage.Rebuilt` complete instead.
- CombatSection.MagicTypeOf: the label shown for an inherited style is the `Object.prototype` member itself. It is not modelled; for `"__proto__"` that member is an object, which React refuses to render.
- String order: `localeCompare` is plain lexicographic order on characters. Locale collation is left out; ISO timestamps compare the same either way.
- Record fields the core never reads are not part of `Character`: appearance, lifepath, image, master and experience.
- `INITIAL_CHARACTER` (`constants/dummy.ts`) is not part of this model. It is the `template` parameter of `EditForm.InitialState`.
- React put the pieces together; that wiring is not modelled:
  - state updates are not modelled as asynchronous;
  - each updater returns the next record instead of calling `setChar`;
  - merging `updates` into the record (`{ ...prev, ...updates }`) is done by the caller of `CharacterActions.UpdateAbilities` and `EditForm.FormUpdateAbilities`;
  - `charRef.current` is the record passed in.
- `handleSubmit` beyond the id assignment and the re-entry guard is not modelled: image compression, `FileReader`, the network save and alerts are I/O. `handleDelete` is a confirm dialog in front of `Storage.Bucket.DeleteCharacter`.
- `window.confirm` is the `confirmed` parameter of `CharacterActions.RemoveSkill`. `alert` and `setErrorInfo` are return values or left out.
- CharacterActions.RemoveSkill: requires an index inside the list. The source throws a TypeError for an index past the end.
- CharacterActions.UpdateSkill: requires an index inside the list. For an index past the end the source would write a skill holding only the edited field into a sparse array.
- CharacterActions.UpdateItem: requires an index inside the list, for the same reason as `UpdateSkill`.
- CharacterActions.SafeBonus: requires an integer or NaN. The handler is only called from the numeric input, which always passes a number. The same holds for `BonusCheck`, `ClampGl` and `GlUpdated`.
- NumberInput.NumberField.Effect: requires the value to be a number or NaN. For `undefined` or `null` the source's `toString()` throws. The same holds for `Blur`, `Resynced` and `BlurText`.
- EquipmentSection.EquipmentRow.constructor: takes a present item. The source reads `item.name` of an empty slot and throws.
- EquipmentSection's `totals` counts an empty slot as 0. The source's `reduce` throws on a slot holding `null`, unlike the weight section's `item?.weight`. The model follows the weight section.
- VerifyPassword: the request's `id` and `password` are strings or absent. A non-string id (a number, an object) is left out.
- Legacy route handlers are not part of this model. `api/save_character`, `api/delete_character` and `api/load_characters` repeat the same encrypt, filter and sort under the `<id>.bin` key. The `.bin` records they leave are modelled by `Storage.LegacyKey`.
- next-auth, email sending (`sendSecurityEmail`) and logging (`console.log`/`console.error`) are left out. The login notice returns the email it would send.
- Rendering: pure rendering components and layouts (`AbilitySection`, `ItemSection`, `SkillSection` and the rest) are left out. Where they compute, they repeat the formulas above.
- Where the code and its written description differ, the model follows the code:
  - `deleteCharacter` does not re-sort the index. `CharacterIndex.RemoveFromIndexOrdered` shows no re-sort is needed.
  - `rebuildIndex` sorts by `updatedAt` only, with no sample tier.
  - The edit form's own `updateAbilities` does not default a missing bonus to 0.

## Findings

| source | as written | input that shows it | evidently intended | confidence | as-written member | corrected member |
|---|---|---|---|---|---|---|
| src/app/api/verify_password/route.ts:29-32 | the route reads the record from `<id>.bin` | a record saved by `saveCharacter` under `preciousdays/x.json` with password `p`, no `x.bin` in the bucket, and `POST {id: "x", password: "p"}` gives 404, while the edit page loads it and redirects without the cookie | the route reads the record where `getCharacterById` and the edit page do, `preciousdays/<id>.json` | not executed; medium, since the legacy save route still writes `<id>.bin` | VerifyPassword.SavedRecordNotFound | VerifyPassword.SavedRecordVerified |
| src/lib/preciousdays/data.ts:233-237 | a record found under a legacy key is saved under `preciousdays/<id>.json`, but the legacy `<id>.bin` copy is never removed | `3f2a.bin` holds record A; a rebuild migrates it; an edit saves B under `preciousdays/3f2a.json`; the next rebuild, whose listing in byte order is `[3f2a.bin, preciousdays/3f2a.json]`, writes A over B. An id sorting after `preciousdays/` is listed the other way round, with the same result | a migration moves the record, so no later rebuild migrates it again | not executed; medium | Storage.RebuildOverwritesLaterEdit | Storage.MovingRebuildKeepsLaterEdit |
| src/components/preciousdays/WeightSection.tsx:9-14 | the section takes a single `char` prop and reads `char.species`, `char.abilities`, `char.equipment` and `char.items` | either caller, `<WeightSection abilities={…} equipment={…} items={…} species={…} />` (ItemSection.tsx:220-225, EquipmentSection.tsx:341-346): `char` is `undefined`, so `char.species` throws on the first render | the section reads the four props its callers pass | not executed; high, since no `char` is passed anywhere, though the mismatch is also a type error the build would report | WeightSection.CallersGetNoFigures | WeightSection.IntendedMatchesCharacter |

- The corrected weight section is `WeightSection.RenderAsIntended`. Its figures come from `WeightSection.WeightLimit` and `WeightSection.TotalWeight`, which `EquipmentSection.TotalsAgreeWeight` compares with the equipment table.
- The as-written behaviour of the rebuild is `Storage.Rebuilt` with `move = false`, which `Storage.Bucket.RebuildIndex` implements. The corrected behaviour is `move = true`: the legacy key is removed once it has been migrated.
- `Storage.RebuildOverwritesLaterEditRecordFirst` shows the same overwrite for the other listing order.
- `Storage.RebuildThenSave` shows how a rebuild followed by a save arrives at the store of the second finding.
- `Storage.StepMigrates`, `Storage.RebuildOfLegacy` and `Storage.RebuiltIndexCorrect` hold for both behaviours.
