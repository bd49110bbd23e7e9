/**
 * The object store behind the character sheet: encrypted records under
 * `preciousdays/<id>.json` (older records under `<id>.bin`), and the
 * plaintext index `preciousdays/index.json`.
 *
 * The store is a map from keys to byte strings. The pure functions below
 * say what every operation reads and what state it leaves; class `Bucket`
 * performs the same operations step by step on its `objects` field. Random
 * IVs and clock readings are parameters; a failed read is an absent key.
 */
module Storage {
  import opened Wrappers
  import opened Bytes
  import opened Js
  import opened Strings
  import opened CharacterTypes
  import opened Tree
  import opened Records
  import opened Cipher
  import opened CharacterIndex

  type Objects = map<string, bytes>

  const FolderPrefix := "preciousdays/"
  const IndexKey := "preciousdays/index.json"

  /** Where `saveCharacter` writes a record. */
  function RecordKey(id: string): string {
    FolderPrefix + id + ".json"
  }

  /** Where records were kept before the folder layout. */
  function LegacyKey(id: string): string {
    id + ".bin"
  }

  /** The key `getCharacterById` reads: an id holding a `/` is already a key. */
  function LookupKey(id: string): (r: string)
    ensures '/' in id ==> r == id
    ensures '/' !in id ==> r == RecordKey(id)
  {
    if '/' in id then id else RecordKey(id)
  }

  // ---------------------------------------------------------------------------
  // Key facts

  lemma IndexKeyIsRecordKey()
    ensures IndexKey == RecordKey("index")
  {
  }

  lemma {:induction false} RecordKeyInjective(a: string, b: string)
    requires RecordKey(a) == RecordKey(b)
    ensures a == b
  {
    var ka, kb := RecordKey(a), RecordKey(b);
    assert |a| == |b|;
    assert a == ka[13..13 + |a|];
    assert b == kb[13..13 + |b|];
  }

  /** Only the record of the id "index" shares its key with the index. */
  lemma RecordKeyNotIndex(id: string)
    requires id != "index"
    ensures RecordKey(id) != IndexKey
  {
    IndexKeyIsRecordKey();
    if RecordKey(id) == IndexKey {
      RecordKeyInjective(id, "index");
    }
  }

  /** A legacy key ends in ".bin", a record key in ".json": they never meet. */
  lemma LegacyNotRecord(a: string, b: string)
    ensures LegacyKey(a) != RecordKey(b)
  {
    var l, k := LegacyKey(a), RecordKey(b);
    assert l[|l| - 4] == '.';
    assert k[|k| - 4] == 'j';
  }

  lemma LegacyNotIndex(id: string)
    ensures LegacyKey(id) != IndexKey
  {
    IndexKeyIsRecordKey();
    LegacyNotRecord(id, "index");
  }

  // ---------------------------------------------------------------------------
  // Reading

  /** `getCharacterByRawKey`: the decrypted and parsed record under `k`;
      `None` when the key is absent or the blob does not decrypt or parse. */
  function GetCharacterByRawKey(objects: Objects, key: Key, k: string): (r: Option<Character>)
    ensures r.Some? ==> k in objects && Decrypt(key, objects[k]).Some?
    ensures r.Some? ==> ParseRecord(Decrypt(key, objects[k]).value) == r
  {
    if k !in objects then None
    else
      match Decrypt(key, objects[k])
      case None => None
      case Some(plain) => ParseRecord(plain)
  }

  /** `getAllCharacters`: the stored index, or the empty index when it is
      absent or does not parse. */
  function GetAllCharacters(objects: Objects): (r: seq<Summary>)
    ensures IndexKey !in objects ==> r == []
    ensures IndexKey in objects && ParseIndex(objects[IndexKey]).Some? ==> r == ParseIndex(objects[IndexKey]).value
    ensures IndexKey in objects && ParseIndex(objects[IndexKey]).None? ==> r == []
  {
    if IndexKey !in objects then []
    else ParseIndex(objects[IndexKey]).GetOr([])
  }

  /** Two stores holding the same blob under `k` (or neither holding one)
      read the same record there. */
  lemma SameBlobSameRead(a: Objects, b: Objects, key: Key, k: string)
    requires (k in a <==> k in b) && (k in a ==> a[k] == b[k])
    ensures GetCharacterByRawKey(a, key, k) == GetCharacterByRawKey(b, key, k)
  {
  }

  function GetCharacterById(objects: Objects, key: Key, id: string): Option<Character> {
    GetCharacterByRawKey(objects, key, LookupKey(id))
  }

  /** Writing an index and reading it back gives the same entries. */
  lemma GetAllCharactersWritten(objects: Objects, xs: seq<Summary>)
    ensures GetAllCharacters(objects[IndexKey := IndexBytes(xs)]) == xs
  {
    ParseIndexBytes(xs);
  }

  // ---------------------------------------------------------------------------
  // Saving

  /** The record as `saveCharacter` stores it: `updatedAt` is the save time. */
  function Saved(c: Character, now: string): (r: Character)
    ensures r.updatedAt == Str(now)
    ensures r.(updatedAt := c.updatedAt) == c
  {
    c.(updatedAt := Str(now))
  }

  /** The store after `saveCharacter(c)` at time `now` with random IV `iv`:
      the encrypted record is written under its key, then the index is read
      back, the summary upserted, the index re-sorted and written. */
  function AfterSave(objects: Objects, key: Key, c: Character, now: string, iv: bytes): Objects
    requires |iv| == BlockSize
  {
    var saved := Saved(c, now);
    var written := WriteRecord(objects, key, c.id, iv, saved);
    WriteIndex(written, SaveToIndex(GetAllCharacters(written), CreateSummary(saved, now)))
  }

  /** Puts the encrypted record under its key. */
  function WriteRecord(objects: Objects, key: Key, id: string, iv: bytes, c: Character): (r: Objects)
    requires |iv| == BlockSize
    ensures r.Keys == objects.Keys + {RecordKey(id)}
    ensures forall k :: k in objects && k != RecordKey(id) ==> r[k] == objects[k]
  {
    objects[RecordKey(id) := Encrypt(key, iv, RecordBytes(c))]
  }

  /** Puts the index, written as plain JSON. */
  function WriteIndex(objects: Objects, xs: seq<Summary>): (r: Objects)
    ensures r.Keys == objects.Keys + {IndexKey}
    ensures forall k :: k in objects && k != IndexKey ==> r[k] == objects[k]
  {
    objects[IndexKey := IndexBytes(xs)]
  }

  /** The two writes of a save, named. */
  lemma AfterSaveIs(objects: Objects, key: Key, c: Character, now: string, iv: bytes,
                    written: Objects, summary: Summary)
    requires |iv| == BlockSize
    requires written == objects[RecordKey(c.id) := Encrypt(key, iv, RecordBytes(Saved(c, now)))]
    requires summary == CreateSummary(Saved(c, now), now)
    ensures AfterSave(objects, key, c, now, iv) == WriteIndex(written, SaveToIndex(GetAllCharacters(written), summary))
  {
  }

  /** A save writes the record key and the index key and nothing else. */
  lemma AfterSaveFrame(objects: Objects, key: Key, c: Character, now: string, iv: bytes)
    requires |iv| == BlockSize
    ensures AfterSave(objects, key, c, now, iv).Keys == objects.Keys + {RecordKey(c.id), IndexKey}
    ensures forall k :: k in objects && k != RecordKey(c.id) && k != IndexKey ==> AfterSave(objects, key, c, now, iv)[k] == objects[k]
  {
  }

  /** A saved record reads back under its key and by its id, with the save
      time as `updatedAt` whatever the caller passed. */
  lemma SaveThenRead(objects: Objects, key: Key, c: Character, now: string, iv: bytes)
    requires |iv| == BlockSize && c.id != "index"
    ensures GetCharacterByRawKey(AfterSave(objects, key, c, now, iv), key, RecordKey(c.id))
            == Some(Saved(c, now).Stored())
    ensures '/' !in c.id ==>
              GetCharacterById(AfterSave(objects, key, c, now, iv), key, c.id) == Some(Saved(c, now).Stored())
    ensures Saved(c, now).Stored().updatedAt == Str(now)
  {
    var r := AfterSave(objects, key, c, now, iv);
    SavedBlob(objects, key, c, now, iv);
    RecordBlobReads(r, key, RecordKey(c.id), iv, Saved(c, now));
  }

  /** A save leaves the encrypted record under the record key. */
  lemma SavedBlob(objects: Objects, key: Key, c: Character, now: string, iv: bytes)
    requires |iv| == BlockSize && c.id != "index"
    ensures var r := AfterSave(objects, key, c, now, iv);
            RecordKey(c.id) in r && r[RecordKey(c.id)] == Encrypt(key, iv, RecordBytes(Saved(c, now)))
  {
    RecordKeyNotIndex(c.id);
  }

  /** A blob written from a record reads back as the record in stored form. */
  lemma RecordBlobReads(o: Objects, key: Key, k: string, iv: bytes, c: Character)
    requires |iv| == BlockSize && k in o && o[k] == Encrypt(key, iv, RecordBytes(c))
    ensures GetCharacterByRawKey(o, key, k) == Some(c.Stored())
  {
    DecryptEncrypt(key, iv, RecordBytes(c));
    ParseRecordBytes(c);
  }

  /** The index after a save: ordered, one entry per id, the saved record's
      summary (stamped with the save time) as the entry for its id, and every
      other record's entry kept. */
  lemma SaveCharacterIndex(objects: Objects, key: Key, c: Character, now: string, iv: bytes)
    requires |iv| == BlockSize && c.id != "index"
    requires UniqueIds(GetAllCharacters(objects))
    ensures var ix := GetAllCharacters(AfterSave(objects, key, c, now, iv));
            var s := CreateSummary(Saved(c, now), now);
            && ix == SaveToIndex(GetAllCharacters(objects), s)
            && IndexOrdered(ix) && UniqueIds(ix)
            && s in ix && s.updatedAt == now
            && (forall y :: y in ix && y.id == c.id ==> y == s)
            && (forall y :: y in GetAllCharacters(objects) && y.id != c.id ==> y in ix)
  {
    RecordKeyNotIndex(c.id);
    var saved := Saved(c, now);
    var written := objects[RecordKey(c.id) := Encrypt(key, iv, RecordBytes(saved))];
    assert GetAllCharacters(written) == GetAllCharacters(objects) by {
      assert (IndexKey in written <==> IndexKey in objects);
      assert IndexKey in objects ==> written[IndexKey] == objects[IndexKey];
    }
    var s := CreateSummary(saved, now);
    GetAllCharactersWritten(written, SaveToIndex(GetAllCharacters(objects), s));
    SaveToIndexCorrect(GetAllCharacters(objects), s);
  }

  // ---------------------------------------------------------------------------
  // Deleting

  /** The store after `deleteCharacter(id)`: both possible record keys are
      removed (a missing one is no error), then the index is written without
      that id's entries, in the order it had. */
  function AfterDelete(objects: Objects, id: string): (r: Objects)
    ensures r.Keys == objects.Keys - {RecordKey(id), LegacyKey(id)} + {IndexKey}
  {
    var removed := objects - {RecordKey(id), LegacyKey(id)};
    removed[IndexKey := IndexBytes(RemoveFromIndex(GetAllCharacters(removed), id))]
  }

  /** After a delete neither record key holds anything, no other record is
      touched, and the index lost exactly the entries with that id. */
  lemma DeleteCharacterCorrect(objects: Objects, key: Key, id: string)
    requires id != "index"
    ensures var r := AfterDelete(objects, id);
            && RecordKey(id) !in r && LegacyKey(id) !in r
            && GetCharacterByRawKey(r, key, RecordKey(id)).None?
            && GetCharacterByRawKey(r, key, LegacyKey(id)).None?
            && (forall k :: k in objects && k != RecordKey(id) && k != LegacyKey(id) && k != IndexKey ==> r[k] == objects[k])
            && GetAllCharacters(r) == RemoveFromIndex(GetAllCharacters(objects), id)
  {
    RecordKeyNotIndex(id);
    LegacyNotIndex(id);
    var removed := objects - {RecordKey(id), LegacyKey(id)};
    assert GetAllCharacters(removed) == GetAllCharacters(objects) by {
      assert (IndexKey in removed <==> IndexKey in objects);
      assert IndexKey in objects ==> removed[IndexKey] == objects[IndexKey];
    }
    GetAllCharactersWritten(removed, RemoveFromIndex(GetAllCharacters(removed), id));
  }

  // ---------------------------------------------------------------------------
  // Rebuilding the index

  /** The listing keys the rebuild looks at: record files, not the index. */
  predicate Scanned(k: string) {
    k != "" && k != IndexKey && (EndsWith(k, ".json") || EndsWith(k, ".bin"))
  }

  /** The rebuild's working state: the store and the summaries collected. */
  datatype Scan = Scan(objects: Objects, summaries: seq<Summary>)

  predicate ValidIvs(ivs: seq<bytes>, n: nat) {
    |ivs| == n && forall i :: 0 <= i < n ==> |ivs[i]| == BlockSize
  }

  /** One listed key: a readable record with an id adds its summary; one
      found under any key but its own is saved under its own key. With
      `move`, the key it was found under is then removed. */
  function RebuildStep(s: Scan, key: Key, k: string, now: string, iv: bytes, move: bool): (r: Scan)
    requires |iv| == BlockSize
    ensures |s.summaries| <= |r.summaries| <= |s.summaries| + 1
  {
    if !Scanned(k) then s
    else
      match GetCharacterByRawKey(s.objects, key, k)
      case None => s
      case Some(c) =>
        if c.id == "" then s
        else
          var summaries := s.summaries + [CreateSummary(c, now)];
          if k == RecordKey(c.id) then Scan(s.objects, summaries)
          else
            var saved := AfterSave(s.objects, key, c, now, iv);
            Scan(if move then saved - {k} else saved, summaries)
  }

  /** The step for a readable record with an id, without `move`. */
  lemma RebuildStepFound(s: Scan, key: Key, k: string, now: string, iv: bytes, c: Character)
    requires |iv| == BlockSize && Scanned(k)
    requires GetCharacterByRawKey(s.objects, key, k) == Some(c) && c.id != ""
    ensures RebuildStep(s, key, k, now, iv, false)
            == Scan(if k == RecordKey(c.id) then s.objects else AfterSave(s.objects, key, c, now, iv),
                    s.summaries + [CreateSummary(c, now)])
  {
  }

  /** The state after the first `n` listed keys. */
  function RebuildScan(objects: Objects, key: Key, keys: seq<string>, now: string, ivs: seq<bytes>,
                       n: nat, move: bool): (r: Scan)
    requires n <= |keys| && ValidIvs(ivs, |keys|)
    ensures |r.summaries| <= n
    decreases n
  {
    if n == 0 then Scan(objects, [])
    else RebuildStep(RebuildScan(objects, key, keys, now, ivs, n - 1, move), key, keys[n - 1], now, ivs[n - 1], move)
  }

  /** `rebuildIndex` over the bucket listing (`None` when the listing has no
      contents): the final store and the index it returns and writes. */
  function Rebuilt(objects: Objects, key: Key, listing: Option<seq<string>>, now: string, ivs: seq<bytes>,
                   move: bool): (r: (Objects, seq<Summary>))
    requires listing.Some? ==> ValidIvs(ivs, |listing.value|)
    ensures listing.None? ==> r == (objects, [])
    ensures listing.Some? ==> IndexKey in r.0
  {
    if listing.None? then (objects, [])
    else
      var s := RebuildScan(objects, key, listing.value, now, ivs, |listing.value|, move);
      var index := RebuildOrder(s.summaries);
      (s.objects[IndexKey := IndexBytes(index)], index)
  }

  /** The index a rebuild returns is the one it stores. */
  lemma RebuiltStoresIndex(objects: Objects, key: Key, keys: seq<string>, now: string, ivs: seq<bytes>, move: bool)
    requires ValidIvs(ivs, |keys|)
    ensures var r := Rebuilt(objects, key, Some(keys), now, ivs, move);
            GetAllCharacters(r.0) == r.1
  {
    var s := RebuildScan(objects, key, keys, now, ivs, |keys|, move);
    GetAllCharactersWritten(s.objects, RebuildOrder(s.summaries));
  }

  /** The rebuilt index is newest first with one entry per id, each the last
      summary collected for it, and no collected id is missing. */
  lemma RebuiltIndexCorrect(objects: Objects, key: Key, keys: seq<string>, now: string, ivs: seq<bytes>, move: bool)
    requires ValidIvs(ivs, |keys|)
    ensures var ix := Rebuilt(objects, key, Some(keys), now, ivs, move).1;
            var collected := RebuildScan(objects, key, keys, now, ivs, |keys|, move).summaries;
            && Sorted(NewestFirst, ix) && UniqueIds(ix)
            && (forall y :: y in ix ==> LastWithId(collected, y.id) == Some(y))
            && (forall y :: y in collected ==> exists z :: z in ix && z.id == y.id)
  {
    RebuildOrderCorrect(RebuildScan(objects, key, keys, now, ivs, |keys|, move).summaries);
  }

  lemma LegacyScanned(id: string)
    requires id != ""
    ensures Scanned(LegacyKey(id))
  {
    LegacyNotIndex(id);
    var k := LegacyKey(id);
    assert k[|k| - 4..] == ".bin";
  }

  lemma RecordScanned(id: string)
    requires id != "index"
    ensures Scanned(RecordKey(id))
  {
    RecordKeyNotIndex(id);
    var k := RecordKey(id);
    assert k[|k| - 5..] == ".json";
  }

  /** Scanning a legacy key whose record carries its id saves the record
      under its own key; without `move` the legacy key stays as it was. */
  lemma StepMigrates(s: Scan, key: Key, id: string, c: Character, now: string, iv: bytes, move: bool)
    requires |iv| == BlockSize && id != "" && id != "index"
    requires GetCharacterByRawKey(s.objects, key, LegacyKey(id)) == Some(c) && c.id == id
    ensures var r := RebuildStep(s, key, LegacyKey(id), now, iv, move);
            && GetCharacterByRawKey(r.objects, key, RecordKey(id)) == Some(Saved(c, now).Stored())
            && (move ==> LegacyKey(id) !in r.objects)
            && (!move ==> LegacyKey(id) in r.objects && r.objects[LegacyKey(id)] == s.objects[LegacyKey(id)])
  {
    var saved := AfterSave(s.objects, key, c, now, iv);
    LegacyScanned(id);
    LegacyNotRecord(id, id);
    StepSaves(s, key, LegacyKey(id), now, iv, move, c, saved);
    LegacyNotIndex(id);
    SavedBlob(s.objects, key, c, now, iv);
    AfterSaveFrame(s.objects, key, c, now, iv);
    var o := if move then saved - {LegacyKey(id)} else saved;
    var blob := Encrypt(key, iv, RecordBytes(Saved(c, now)));
    MigratedFrame(s.objects, saved, o, id, move, blob);
    RecordBlobReads(o, key, RecordKey(id), iv, Saved(c, now));
  }

  /** The store a migration leaves: the saved blob under the record key,
      and the legacy key removed with `move` and untouched without. */
  lemma MigratedFrame(objects: Objects, saved: Objects, o: Objects, id: string, move: bool, blob: bytes)
    requires LegacyKey(id) != RecordKey(id) && LegacyKey(id) != IndexKey
    requires RecordKey(id) in saved && saved[RecordKey(id)] == blob
    requires saved.Keys == objects.Keys + {RecordKey(id), IndexKey}
    requires forall k :: k in objects && k != RecordKey(id) && k != IndexKey ==> saved[k] == objects[k]
    requires o == if move then saved - {LegacyKey(id)} else saved
    ensures RecordKey(id) in o && o[RecordKey(id)] == blob
    ensures move ==> LegacyKey(id) !in o
    ensures !move ==> (LegacyKey(id) in o <==> LegacyKey(id) in objects)
    ensures !move && LegacyKey(id) in objects ==> o[LegacyKey(id)] == objects[LegacyKey(id)]
  {
  }

  /** The step for a readable record with an id found under another key:
      the store after the save, less that key with `move`. */
  lemma StepSaves(s: Scan, key: Key, k: string, now: string, iv: bytes, move: bool, c: Character, saved: Objects)
    requires |iv| == BlockSize && Scanned(k)
    requires GetCharacterByRawKey(s.objects, key, k) == Some(c) && c.id != "" && k != RecordKey(c.id)
    requires saved == AfterSave(s.objects, key, c, now, iv)
    ensures RebuildStep(s, key, k, now, iv, move).objects == if move then saved - {k} else saved
  {
  }

  /** Scanning a record under its own key changes no stored object. */
  lemma StepReadsInPlace(s: Scan, key: Key, id: string, now: string, iv: bytes, move: bool)
    requires |iv| == BlockSize && id != "index"
    requires forall c :: GetCharacterByRawKey(s.objects, key, RecordKey(id)) == Some(c) ==> c.id == id
    ensures RebuildStep(s, key, RecordKey(id), now, iv, move).objects == s.objects
  {
    RecordScanned(id);
  }

  /** A key the scan skips (empty, the index, or neither `.json` nor `.bin`),
      and a record that does not decode or has no id, leave the scan as it
      was: no summary, no write, no move. */
  lemma StepSkipped(s: Scan, key: Key, k: string, now: string, iv: bytes, move: bool)
    requires |iv| == BlockSize
    requires || !Scanned(k)
             || GetCharacterByRawKey(s.objects, key, k).None?
             || GetCharacterByRawKey(s.objects, key, k).value.id == ""
    ensures RebuildStep(s, key, k, now, iv, move) == s
  {
  }

  /** A listing of one key is scanned as one step. */
  lemma ScanOne(objects: Objects, key: Key, keys: seq<string>, now: string, ivs: seq<bytes>, move: bool)
    requires |keys| == 1 && ValidIvs(ivs, 1)
    ensures RebuildScan(objects, key, keys, now, ivs, 1, move)
            == RebuildStep(Scan(objects, []), key, keys[0], now, ivs[0], move)
  {
  }

  /** A listing of two keys is scanned as two steps. */
  lemma ScanTwo(objects: Objects, key: Key, keys: seq<string>, now: string, ivs: seq<bytes>, move: bool)
    requires |keys| == 2 && ValidIvs(ivs, 2)
    ensures RebuildScan(objects, key, keys, now, ivs, 1, move)
            == RebuildStep(Scan(objects, []), key, keys[0], now, ivs[0], move)
    ensures RebuildScan(objects, key, keys, now, ivs, 2, move)
            == RebuildStep(RebuildScan(objects, key, keys, now, ivs, 1, move), key, keys[1], now, ivs[1], move)
  {
  }

  /** Writing the index leaves every record key as it was. */
  lemma IndexWriteKeepsRecord(objects: Objects, key: Key, id: string, index: seq<Summary>)
    requires id != "index"
    ensures GetCharacterByRawKey(objects[IndexKey := IndexBytes(index)], key, RecordKey(id))
            == GetCharacterByRawKey(objects, key, RecordKey(id))
    ensures (LegacyKey(id) in objects[IndexKey := IndexBytes(index)]) == (LegacyKey(id) in objects)
    ensures LegacyKey(id) in objects ==> objects[IndexKey := IndexBytes(index)][LegacyKey(id)] == objects[LegacyKey(id)]
  {
    RecordKeyNotIndex(id);
    LegacyNotIndex(id);
  }

  /** A rebuild over a listing of one legacy key whose record carries its id
      saves the record under its own key; only with `move` is the legacy
      copy removed. */
  lemma RebuildOfLegacy(objects: Objects, key: Key, id: string, c: Character, now: string, ivs: seq<bytes>, move: bool)
    requires ValidIvs(ivs, 1) && id != "" && id != "index" && c.id == id
    requires GetCharacterByRawKey(objects, key, LegacyKey(id)) == Some(c)
    ensures var o := Rebuilt(objects, key, Some([LegacyKey(id)]), now, ivs, move).0;
            && GetCharacterByRawKey(o, key, RecordKey(id)) == Some(Saved(c, now).Stored())
            && (move ==> LegacyKey(id) !in o)
            && (!move ==> GetCharacterByRawKey(o, key, LegacyKey(id)) == Some(c))
  {
    var keys := [LegacyKey(id)];
    var s1 := RebuildScan(objects, key, keys, now, ivs, 1, move);
    ScanOne(objects, key, keys, now, ivs, move);
    StepMigrates(Scan(objects, []), key, id, c, now, ivs[0], move);
    IndexWriteKeepsRecord(s1.objects, key, id, RebuildOrder(s1.summaries));
  }

  /** The rebuild as written, over the legacy key and then the record key of
      `id`, on a store whose legacy key still holds the old record `c` while
      the record key holds a later edit: the edit is overwritten with `c`.
      `RebuildThenSave` shows such a store arises from a rebuild and a save. */
  lemma RebuildOverwritesLaterEdit(objects: Objects, key: Key, id: string, c: Character, edit: Character,
                                   now: string, ivs: seq<bytes>)
    requires ValidIvs(ivs, 2) && id != "" && id != "index" && c.id == id
    requires GetCharacterByRawKey(objects, key, LegacyKey(id)) == Some(c)
    requires GetCharacterByRawKey(objects, key, RecordKey(id)) == Some(edit)
    requires c.characterName != edit.characterName
    ensures var o := Rebuilt(objects, key, Some([LegacyKey(id), RecordKey(id)]), now, ivs, false).0;
            && GetCharacterByRawKey(o, key, RecordKey(id)) == Some(Saved(c, now).Stored())
            && GetCharacterByRawKey(o, key, RecordKey(id)) != GetCharacterByRawKey(objects, key, RecordKey(id))
  {
    var keys := [LegacyKey(id), RecordKey(id)];
    var t1 := RebuildScan(objects, key, keys, now, ivs, 1, false);
    var t2 := RebuildScan(objects, key, keys, now, ivs, 2, false);
    ScanTwo(objects, key, keys, now, ivs, false);
    StepMigrates(Scan(objects, []), key, id, c, now, ivs[0], false);
    StepReadsInPlace(t1, key, id, now, ivs[1], false);
    IndexWriteKeepsRecord(t2.objects, key, id, RebuildOrder(t2.summaries));
  }

  /** The same overwrite when the listing names the record before the legacy
      copy, as byte order does for an id that sorts after `preciousdays/`. */
  lemma RebuildOverwritesLaterEditRecordFirst(objects: Objects, key: Key, id: string, c: Character, edit: Character,
                                              now: string, ivs: seq<bytes>)
    requires ValidIvs(ivs, 2) && id != "" && id != "index" && c.id == id && edit.id == id
    requires GetCharacterByRawKey(objects, key, LegacyKey(id)) == Some(c)
    requires GetCharacterByRawKey(objects, key, RecordKey(id)) == Some(edit)
    requires c.characterName != edit.characterName
    ensures var o := Rebuilt(objects, key, Some([RecordKey(id), LegacyKey(id)]), now, ivs, false).0;
            && GetCharacterByRawKey(o, key, RecordKey(id)) == Some(Saved(c, now).Stored())
            && GetCharacterByRawKey(o, key, RecordKey(id)) != GetCharacterByRawKey(objects, key, RecordKey(id))
  {
    var keys := [RecordKey(id), LegacyKey(id)];
    var t1 := RebuildScan(objects, key, keys, now, ivs, 1, false);
    var t2 := RebuildScan(objects, key, keys, now, ivs, 2, false);
    ScanTwo(objects, key, keys, now, ivs, false);
    StepReadsInPlace(Scan(objects, []), key, id, now, ivs[0], false);
    StepMigrates(t1, key, id, c, now, ivs[1], false);
    IndexWriteKeepsRecord(t2.objects, key, id, RebuildOrder(t2.summaries));
  }

  /** The rebuild that removes a legacy key once migrated: after it, a
      later edit survives the next rebuild, since the legacy key is gone
      (`RebuildThenSave`) and a record under its own key is left as it is. */
  lemma MovingRebuildKeepsLaterEdit(objects: Objects, key: Key, id: string, now: string, ivs: seq<bytes>)
    requires ValidIvs(ivs, 2) && id != "" && id != "index"
    requires LegacyKey(id) !in objects
    requires forall d :: GetCharacterByRawKey(objects, key, RecordKey(id)) == Some(d) ==> d.id == id
    ensures var o := Rebuilt(objects, key, Some([LegacyKey(id), RecordKey(id)]), now, ivs, true).0;
            GetCharacterByRawKey(o, key, RecordKey(id)) == GetCharacterByRawKey(objects, key, RecordKey(id))
  {
    var keys := [LegacyKey(id), RecordKey(id)];
    var t1 := RebuildScan(objects, key, keys, now, ivs, 1, true);
    var t2 := RebuildScan(objects, key, keys, now, ivs, 2, true);
    ScanTwo(objects, key, keys, now, ivs, true);
    StepSkipped(Scan(objects, []), key, LegacyKey(id), now, ivs[0], true);
    StepReadsInPlace(t1, key, id, now, ivs[1], true);
    IndexWriteKeepsRecord(t2.objects, key, id, RebuildOrder(t2.summaries));
  }

  /** A save leaves the legacy key of its own id as it was. */
  lemma SaveKeepsLegacy(objects: Objects, key: Key, c: Character, now: string, iv: bytes)
    requires |iv| == BlockSize
    ensures (LegacyKey(c.id) in AfterSave(objects, key, c, now, iv)) == (LegacyKey(c.id) in objects)
    ensures GetCharacterByRawKey(AfterSave(objects, key, c, now, iv), key, LegacyKey(c.id))
            == GetCharacterByRawKey(objects, key, LegacyKey(c.id))
  {
    var after := AfterSave(objects, key, c, now, iv);
    AfterSaveFrame(objects, key, c, now, iv);
    LegacyNotRecord(c.id, c.id);
    LegacyNotIndex(c.id);
    SameBlobSameRead(after, objects, key, LegacyKey(c.id));
  }

  /** A rebuild over the legacy key followed by a save of `c2` under the
      same id: the record key holds the edit, and the legacy key still holds
      the old record unless the rebuild moved it. */
  lemma RebuildThenSave(objects: Objects, key: Key, id: string, c: Character, c2: Character,
                        now1: string, now2: string, ivs: seq<bytes>, iv: bytes, move: bool)
    requires ValidIvs(ivs, 1) && |iv| == BlockSize
    requires id != "" && id != "index" && c.id == id && c2.id == id
    requires GetCharacterByRawKey(objects, key, LegacyKey(id)) == Some(c)
    ensures var o1 := Rebuilt(objects, key, Some([LegacyKey(id)]), now1, ivs, move).0;
            var o2 := AfterSave(o1, key, c2, now2, iv);
            && GetCharacterByRawKey(o1, key, RecordKey(id)) == Some(Saved(c, now1).Stored())
            && GetCharacterByRawKey(o2, key, RecordKey(id)) == Some(Saved(c2, now2).Stored())
            && (move ==> LegacyKey(id) !in o1 && LegacyKey(id) !in o2)
            && (!move ==> GetCharacterByRawKey(o2, key, LegacyKey(id)) == Some(c))
  {
    var o1 := Rebuilt(objects, key, Some([LegacyKey(id)]), now1, ivs, move).0;
    RebuildOfLegacy(objects, key, id, c, now1, ivs, move);
    SaveThenRead(o1, key, c2, now2, iv);
    SaveKeepsLegacy(o1, key, c2, now2, iv);
  }

  // ---------------------------------------------------------------------------
  // The bucket

  /** The R2 bucket together with the record key derived from the secret. */
  class Bucket {
    var objects: Objects
    const key: Key

    constructor(objects0: Objects, key0: Key)
      ensures objects == objects0 && key == key0
    {
      objects := objects0;
      key := key0;
    }

    /** `saveCharacter`, with the clock reading and the random IV as inputs. */
    method SaveCharacter(c: Character, now: string, iv: bytes)
      requires |iv| == BlockSize
      modifies this
      ensures objects == AfterSave(old(objects), key, c, now, iv)
    {
      ghost var before := objects;
      var dataToSave := c.(updatedAt := Str(now));
      objects := objects[RecordKey(c.id) := Encrypt(key, iv, RecordBytes(dataToSave))];
      ghost var written := objects;
      var index := GetAllCharacters(objects);
      var summary := CreateSummary(dataToSave, now);
      var existing := FindIndex(index, summary.id);
      if existing.Some? {
        index := index[existing.value := summary];
      } else {
        index := index + [summary];
      }
      assert index == Upsert(GetAllCharacters(written), summary);
      objects := objects[IndexKey := IndexBytes(SortCharacterIndex(index))];
      AfterSaveIs(before, key, c, now, iv, written, summary);
    }

    /** `deleteCharacter`: both record keys are tried in turn, then the index
        is filtered and written. */
    method DeleteCharacter(id: string)
      modifies this
      ensures objects == AfterDelete(old(objects), id)
    {
      var paths := [RecordKey(id), LegacyKey(id)];
      for i := 0 to |paths|
        invariant objects == old(objects) - (set j | 0 <= j < i :: paths[j])
      {
        objects := objects - {paths[i]};
      }
      assert (set j | 0 <= j < 2 :: paths[j]) == {RecordKey(id), LegacyKey(id)} by {
        assert paths[0] == RecordKey(id) && paths[1] == LegacyKey(id);
      }
      var index := GetAllCharacters(objects);
      objects := objects[IndexKey := IndexBytes(RemoveFromIndex(index, id))];
    }

    /** `rebuildIndex` as written: scans the listing, collects summaries,
        migrates records found under other keys, then writes the index. */
    method RebuildIndex(listing: Option<seq<string>>, now: string, ivs: seq<bytes>) returns (r: seq<Summary>)
      requires listing.Some? ==> ValidIvs(ivs, |listing.value|)
      modifies this
      ensures (objects, r) == Rebuilt(old(objects), key, listing, now, ivs, false)
    {
      if listing.None? {
        return [];
      }
      var keys := listing.value;
      var summaries: seq<Summary> := [];
      ghost var start := objects;
      for i := 0 to |keys|
        invariant Scan(objects, summaries) == RebuildScan(start, key, keys, now, ivs, i, false)
      {
        ghost var before := Scan(objects, summaries);
        assert RebuildScan(start, key, keys, now, ivs, i + 1, false) == RebuildStep(before, key, keys[i], now, ivs[i], false);
        var k := keys[i];
        if !Scanned(k) {
          continue;
        }
        var character := GetCharacterByRawKey(objects, key, k);
        if character.Some? && character.value.id != "" {
          var c := character.value;
          RebuildStepFound(before, key, k, now, ivs[i], c);
          summaries := summaries + [CreateSummary(c, now)];
          if k != RecordKey(c.id) {
            SaveCharacter(c, now, ivs[i]);
          }
        }
      }
      r := RebuildOrder(summaries);
      objects := objects[IndexKey := IndexBytes(r)];
    }
  }
}
