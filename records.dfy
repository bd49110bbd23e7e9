/**
 * How a character record and the character index are written as JSON and
 * read back. Writing follows `JSON.stringify`: `undefined` members are left
 * out and NaN is written as `null`. Reading is as forgiving as the code that
 * consumes `JSON.parse` results: a member that is absent, or holds a value of
 * another JSON type, reads as absent (`Missing`, `Absent`, `""`, `[]`).
 */
module Records {
  import opened Wrappers
  import opened Js
  import opened Bytes
  import opened Tree
  import opened CharacterTypes

  // ---------------------------------------------------------------------------
  // Members

  function NumJson(n: Num): Option<Json> {
    match n
    case Missing => None
    case Null => Some(JNull)
    case NaN => Some(JNull)
    case Int(v) => Some(JNum(v))
  }

  function ReadNum(o: Option<Json>): (r: Num)
    ensures !r.NaN?
  {
    match o
    case Some(JNull) => Null
    case Some(JNum(v)) => Int(v)
    case _ => Missing
  }

  function TextJson(t: Text): Option<Json> {
    match t
    case Absent => None
    case Str(s) => Some(JStr(s))
  }

  function ReadText(o: Option<Json>): Text {
    match o
    case Some(JStr(s)) => Str(s)
    case _ => Absent
  }

  function ReadString(o: Option<Json>): string {
    match o
    case Some(JStr(s)) => s
    case _ => ""
  }

  /** A number reads back as written, NaN as null. */
  lemma ReadNumJson(n: Num)
    ensures ReadNum(NumJson(n)) == n.Stored()
  {
  }

  lemma ReadTextJson(t: Text)
    ensures ReadText(TextJson(t)) == t
  {
  }

  /** `{ modifier: n }` */
  function ModifierJson(n: Num): Option<Json> {
    Some(ObjectOf([Entry("modifier", NumJson(n))]))
  }

  /** `x?.modifier` */
  function ReadModifier(o: Option<Json>): Num {
    if o.Some? then ReadNum(Member(o.value, "modifier")) else Missing
  }

  lemma ReadModifierJson(n: Num)
    ensures ReadModifier(ModifierJson(n)) == n.Stored()
  {
    MemberObjectOf([Entry("modifier", NumJson(n))], 0);
    ReadNumJson(n);
  }

  // ---------------------------------------------------------------------------
  // Abilities

  function ScoreEntries(s: AbilityScore): seq<Entry> {
    [Entry("base", NumJson(s.base)), Entry("bonus", NumJson(s.bonus)),
     Entry("otherModifier", NumJson(s.otherModifier)), Entry("total", NumJson(s.total)),
     Entry("adjusted", NumJson(s.adjusted))]
  }

  function ReadScore(o: Option<Json>): AbilityScore {
    if o.None? then EmptyScore
    else
      var j := o.value;
      AbilityScore(ReadNum(Member(j, "base")), ReadNum(Member(j, "bonus")),
                   ReadNum(Member(j, "otherModifier")), ReadNum(Member(j, "total")),
                   ReadNum(Member(j, "adjusted")))
  }

  lemma ReadScoreJson(s: AbilityScore)
    ensures ReadScore(Some(ObjectOf(ScoreEntries(s)))) == s.Stored()
  {
    var es := ScoreEntries(s);
    ReadNumJson(s.base); ReadNumJson(s.bonus); ReadNumJson(s.otherModifier);
    ReadNumJson(s.total); ReadNumJson(s.adjusted);
    MemberObjectOf(es, 0);
    MemberObjectOf(es, 1);
    MemberObjectOf(es, 2);
    MemberObjectOf(es, 3);
    MemberObjectOf(es, 4);
  }

  function AbilitiesEntries(a: Abilities): seq<Entry> {
    [Entry("physical", Some(ObjectOf(ScoreEntries(a.physical)))),
     Entry("intellect", Some(ObjectOf(ScoreEntries(a.intellect)))),
     Entry("mystic", Some(ObjectOf(ScoreEntries(a.mystic)))),
     Entry("agility", Some(ObjectOf(ScoreEntries(a.agility)))),
     Entry("passion", Some(ObjectOf(ScoreEntries(a.passion)))),
     Entry("affection", Some(ObjectOf(ScoreEntries(a.affection))))]
  }

  function ReadAbilities(o: Option<Json>): Abilities {
    if o.None? then NoAbilities
    else
      var j := o.value;
      Abilities(ReadScore(Member(j, "physical")), ReadScore(Member(j, "intellect")),
                ReadScore(Member(j, "mystic")), ReadScore(Member(j, "agility")),
                ReadScore(Member(j, "passion")), ReadScore(Member(j, "affection")))
  }

  lemma ReadAbilitiesJson(a: Abilities)
    ensures ReadAbilities(Some(ObjectOf(AbilitiesEntries(a)))) == a.Stored()
  {
    var es := AbilitiesEntries(a);
    MemberObjectOf(es, 0);
    MemberObjectOf(es, 1);
    MemberObjectOf(es, 2);
    MemberObjectOf(es, 3);
    MemberObjectOf(es, 4);
    MemberObjectOf(es, 5);
    ReadScoreJson(a.physical);
    ReadScoreJson(a.intellect);
    ReadScoreJson(a.mystic);
    ReadScoreJson(a.agility);
    ReadScoreJson(a.passion);
    ReadScoreJson(a.affection);
  }

  // ---------------------------------------------------------------------------
  // Skills and items

  function SkillEntries(k: Skill): seq<Entry> {
    [Entry("id", Some(JStr(k.id))), Entry("name", Some(JStr(k.name))),
     Entry("level", NumJson(k.level)), Entry("effect", Some(JStr(k.effect)))]
  }

  function ReadSkill(j: Json): Skill {
    Skill(ReadString(Member(j, "id")), ReadString(Member(j, "name")),
          ReadNum(Member(j, "level")), ReadString(Member(j, "effect")))
  }

  function SkillsJson(ks: seq<Skill>): Json {
    JArr(seq(|ks|, i requires 0 <= i < |ks| => ObjectOf(SkillEntries(ks[i]))))
  }

  function ReadSkills(o: Option<Json>): seq<Skill> {
    match o
    case Some(JArr(js)) => seq(|js|, i requires 0 <= i < |js| => ReadSkill(js[i]))
    case _ => []
  }

  lemma ReadSkillJson(k: Skill)
    ensures ReadSkill(ObjectOf(SkillEntries(k))) == k.Stored()
  {
    var es := SkillEntries(k);
    ReadNumJson(k.level);
    MemberObjectOf(es, 0);
    MemberObjectOf(es, 1);
    MemberObjectOf(es, 2);
    MemberObjectOf(es, 3);
  }

  lemma ReadSkillsJson(ks: seq<Skill>)
    ensures ReadSkills(Some(SkillsJson(ks))) == StoredSkills(ks)
  {
    forall i | 0 <= i < |ks| ensures ReadSkill(SkillsJson(ks).items[i]) == ks[i].Stored() {
      ReadSkillJson(ks[i]);
    }
  }

  function ItemEntries(t: Item): seq<Entry> {
    [Entry("id", Some(JStr(t.id))), Entry("name", Some(JStr(t.name))),
     Entry("weight", NumJson(t.weight)), Entry("quantity", NumJson(t.quantity)),
     Entry("notes", Some(JStr(t.notes)))]
  }

  function ReadItem(j: Json): Item {
    Item(ReadString(Member(j, "id")), ReadString(Member(j, "name")),
         ReadNum(Member(j, "weight")), ReadNum(Member(j, "quantity")),
         ReadString(Member(j, "notes")))
  }

  function ItemsJson(ts: seq<Item>): Json {
    JArr(seq(|ts|, i requires 0 <= i < |ts| => ObjectOf(ItemEntries(ts[i]))))
  }

  function ReadItems(o: Option<Json>): seq<Item> {
    match o
    case Some(JArr(js)) => seq(|js|, i requires 0 <= i < |js| => ReadItem(js[i]))
    case _ => []
  }

  lemma ReadItemJson(t: Item)
    ensures ReadItem(ObjectOf(ItemEntries(t))) == t.Stored()
  {
    var es := ItemEntries(t);
    ReadNumJson(t.weight);
    ReadNumJson(t.quantity);
    MemberObjectOf(es, 0);
    MemberObjectOf(es, 1);
    MemberObjectOf(es, 2);
    MemberObjectOf(es, 3);
    MemberObjectOf(es, 4);
  }

  lemma ReadItemsJson(ts: seq<Item>)
    ensures ReadItems(Some(ItemsJson(ts))) == StoredItems(ts)
  {
    forall i | 0 <= i < |ts| ensures ReadItem(ItemsJson(ts).items[i]) == ts[i].Stored() {
      ReadItemJson(ts[i]);
    }
  }

  // ---------------------------------------------------------------------------
  // Equipment

  function EquipEntries(e: EquipmentItem): seq<Entry> {
    [Entry("name", TextJson(e.name)), Entry("weight", NumJson(e.weight)),
     Entry("hitMod", NumJson(e.hitMod)), Entry("damage", TextJson(e.damage)),
     Entry("range", TextJson(e.range)), Entry("dodgeMod", NumJson(e.dodgeMod)),
     Entry("defenseMod", NumJson(e.defenseMod)), Entry("magicDefense", NumJson(e.magicDefense)),
     Entry("notes", TextJson(e.notes))]
  }

  function SlotJson(o: Option<EquipmentItem>): Option<Json> {
    if o.Some? then Some(ObjectOf(EquipEntries(o.value))) else None
  }

  /** A slot holding anything but an object is empty. */
  function ReadSlot(o: Option<Json>): Option<EquipmentItem> {
    if o.Some? && o.value.JObj? then
      var j := o.value;
      Some(EquipmentItem(
        ReadText(Member(j, "name")), ReadNum(Member(j, "weight")), ReadNum(Member(j, "hitMod")),
        ReadText(Member(j, "damage")), ReadText(Member(j, "range")), ReadNum(Member(j, "dodgeMod")),
        ReadNum(Member(j, "defenseMod")), ReadNum(Member(j, "magicDefense")), ReadText(Member(j, "notes"))))
    else None
  }

  lemma ReadSlotJson(o: Option<EquipmentItem>)
    ensures ReadSlot(SlotJson(o)) == StoredSlot(o)
  {
    if o.Some? {
      var e, es := o.value, EquipEntries(o.value);
      ReadTextJson(e.name); ReadTextJson(e.damage); ReadTextJson(e.range); ReadTextJson(e.notes);
      ReadNumJson(e.weight); ReadNumJson(e.hitMod); ReadNumJson(e.dodgeMod);
      ReadNumJson(e.defenseMod); ReadNumJson(e.magicDefense);
      MemberObjectOf(es, 0);
      MemberObjectOf(es, 1);
      MemberObjectOf(es, 2);
      MemberObjectOf(es, 3);
      MemberObjectOf(es, 4);
      MemberObjectOf(es, 5);
      MemberObjectOf(es, 6);
      MemberObjectOf(es, 7);
      MemberObjectOf(es, 8);
    }
  }

  function EquipmentEntries(e: Equipment): seq<Entry> {
    [Entry("rHand", SlotJson(e.rHand)), Entry("lHand", SlotJson(e.lHand)),
     Entry("head", SlotJson(e.head)), Entry("body", SlotJson(e.body)),
     Entry("accessory", SlotJson(e.accessory)), Entry("guardian", SlotJson(e.guardian))]
  }

  function ReadEquipment(o: Option<Json>): Equipment {
    if o.None? then Equipment(None, None, None, None, None, None)
    else
      var j := o.value;
      Equipment(ReadSlot(Member(j, "rHand")), ReadSlot(Member(j, "lHand")),
                ReadSlot(Member(j, "head")), ReadSlot(Member(j, "body")),
                ReadSlot(Member(j, "accessory")), ReadSlot(Member(j, "guardian")))
  }

  lemma ReadEquipmentJson(e: Equipment)
    ensures ReadEquipment(Some(ObjectOf(EquipmentEntries(e)))) == e.Stored()
  {
    var es := EquipmentEntries(e);
    MemberObjectOf(es, 0);
    MemberObjectOf(es, 1);
    MemberObjectOf(es, 2);
    MemberObjectOf(es, 3);
    MemberObjectOf(es, 4);
    MemberObjectOf(es, 5);
    ReadSlotJson(e.rHand);
    ReadSlotJson(e.lHand);
    ReadSlotJson(e.head);
    ReadSlotJson(e.body);
    ReadSlotJson(e.accessory);
    ReadSlotJson(e.guardian);
  }

  // ---------------------------------------------------------------------------
  // Combat values and special checks

  function CombatEntries(c: CombatMods): seq<Entry> {
    [Entry("magic", ModifierJson(c.magic)), Entry("dodge", ModifierJson(c.dodge)),
     Entry("defense", ModifierJson(c.defense)), Entry("damage", ModifierJson(c.damage))]
  }

  function SpecialEntries(c: CombatMods): seq<Entry> {
    [Entry("enemyLore", ModifierJson(c.enemyLore)), Entry("appraisal", ModifierJson(c.appraisal))]
  }

  function ReadCombat(cv: Option<Json>, sc: Option<Json>): CombatMods {
    var c := if cv.Some? then cv.value else JNull;
    var s := if sc.Some? then sc.value else JNull;
    CombatMods(ReadModifier(Member(c, "magic")), ReadModifier(Member(c, "dodge")),
               ReadModifier(Member(c, "defense")), ReadModifier(Member(c, "damage")),
               ReadModifier(Member(s, "enemyLore")), ReadModifier(Member(s, "appraisal")))
  }

  lemma ReadCombatJson(c: CombatMods)
    ensures ReadCombat(Some(ObjectOf(CombatEntries(c))), Some(ObjectOf(SpecialEntries(c)))) == c.Stored()
  {
    var cs, ss := CombatEntries(c), SpecialEntries(c);
    MemberObjectOf(cs, 0);
    MemberObjectOf(cs, 1);
    MemberObjectOf(cs, 2);
    MemberObjectOf(cs, 3);
    MemberObjectOf(ss, 0);
    MemberObjectOf(ss, 1);
    ReadModifierJson(c.magic);
    ReadModifierJson(c.dodge);
    ReadModifierJson(c.defense);
    ReadModifierJson(c.damage);
    ReadModifierJson(c.enemyLore);
    ReadModifierJson(c.appraisal);
  }

  // ---------------------------------------------------------------------------
  // The character record

  function CharacterEntries(c: Character): seq<Entry> {
    [Entry("id", Some(JStr(c.id))),
     Entry("password", TextJson(c.password)),
     Entry("characterName", TextJson(c.characterName)),
     Entry("playerName", TextJson(c.playerName)),
     Entry("species", TextJson(c.species)),
     Entry("style", TextJson(c.style)),
     Entry("element", TextJson(c.element)),
     Entry("updatedAt", TextJson(c.updatedAt)),
     Entry("hp", ModifierJson(c.hp)),
     Entry("mp", ModifierJson(c.mp)),
     Entry("wp", ModifierJson(c.wp)),
     Entry("gl", NumJson(c.gl)),
     Entry("abilities", Some(ObjectOf(AbilitiesEntries(c.abilities)))),
     Entry("skills", Some(SkillsJson(c.skills))),
     Entry("items", Some(ItemsJson(c.items))),
     Entry("equipment", Some(ObjectOf(EquipmentEntries(c.equipment)))),
     Entry("combatValues", Some(ObjectOf(CombatEntries(c.combat)))),
     Entry("specialChecks", Some(ObjectOf(SpecialEntries(c.combat))))]
  }

  function CharacterJson(c: Character): Json {
    ObjectOf(CharacterEntries(c))
  }

  /** A parsed record; anything but an object (such as `null`) is no record. */
  function ReadCharacter(j: Json): Option<Character> {
    if !j.JObj? then None
    else
      Some(Character(
        ReadString(Member(j, "id")),
        ReadText(Member(j, "password")),
        ReadText(Member(j, "characterName")),
        ReadText(Member(j, "playerName")),
        ReadText(Member(j, "species")),
        ReadText(Member(j, "style")),
        ReadText(Member(j, "element")),
        ReadText(Member(j, "updatedAt")),
        ReadModifier(Member(j, "hp")),
        ReadModifier(Member(j, "mp")),
        ReadModifier(Member(j, "wp")),
        ReadNum(Member(j, "gl")),
        ReadAbilities(Member(j, "abilities")),
        ReadSkills(Member(j, "skills")),
        ReadItems(Member(j, "items")),
        ReadEquipment(Member(j, "equipment")),
        ReadCombat(Member(j, "combatValues"), Member(j, "specialChecks"))))
  }

  /** The record's top-level member names, in writing order. */
  const RecordKeys: seq<string> :=
    ["id", "password", "characterName", "playerName", "species", "style", "element", "updatedAt",
     "hp", "mp", "wp", "gl", "abilities", "skills", "items", "equipment", "combatValues", "specialChecks"]

  lemma RecordKeysDistinct()
    ensures forall i, j :: 0 <= i < j < |RecordKeys| ==> RecordKeys[i] != RecordKeys[j]
  {
  }

  lemma CharacterKeysDistinct(c: Character)
    ensures DistinctKeys(CharacterEntries(c))
  {
    var es := CharacterEntries(c);
    assert forall i :: 0 <= i < |es| ==> es[i].key == RecordKeys[i];
    RecordKeysDistinct();
  }

  /** The `i`th member of a written record reads back as written. */
  lemma CharacterMember(c: Character, i: nat)
    requires i < |CharacterEntries(c)|
    ensures Member(CharacterJson(c), CharacterEntries(c)[i].key) == CharacterEntries(c)[i].value
  {
    CharacterKeysDistinct(c);
    MemberObjectOf(CharacterEntries(c), i);
  }

  /** The members of a written record, one by one. */
  lemma CharacterMembers(c: Character)
    ensures Member(CharacterJson(c), "id") == Some(JStr(c.id))
    ensures Member(CharacterJson(c), "password") == TextJson(c.password)
    ensures Member(CharacterJson(c), "characterName") == TextJson(c.characterName)
    ensures Member(CharacterJson(c), "playerName") == TextJson(c.playerName)
    ensures Member(CharacterJson(c), "species") == TextJson(c.species)
    ensures Member(CharacterJson(c), "style") == TextJson(c.style)
    ensures Member(CharacterJson(c), "element") == TextJson(c.element)
    ensures Member(CharacterJson(c), "updatedAt") == TextJson(c.updatedAt)
    ensures Member(CharacterJson(c), "hp") == ModifierJson(c.hp)
    ensures Member(CharacterJson(c), "mp") == ModifierJson(c.mp)
    ensures Member(CharacterJson(c), "wp") == ModifierJson(c.wp)
    ensures Member(CharacterJson(c), "gl") == NumJson(c.gl)
    ensures Member(CharacterJson(c), "abilities") == Some(ObjectOf(AbilitiesEntries(c.abilities)))
    ensures Member(CharacterJson(c), "skills") == Some(SkillsJson(c.skills))
    ensures Member(CharacterJson(c), "items") == Some(ItemsJson(c.items))
    ensures Member(CharacterJson(c), "equipment") == Some(ObjectOf(EquipmentEntries(c.equipment)))
    ensures Member(CharacterJson(c), "combatValues") == Some(ObjectOf(CombatEntries(c.combat)))
    ensures Member(CharacterJson(c), "specialChecks") == Some(ObjectOf(SpecialEntries(c.combat)))
  {
    CharacterMember(c, 0);
    CharacterMember(c, 1);
    CharacterMember(c, 2);
    CharacterMember(c, 3);
    CharacterMember(c, 4);
    CharacterMember(c, 5);
    CharacterMember(c, 6);
    CharacterMember(c, 7);
    CharacterMember(c, 8);
    CharacterMember(c, 9);
    CharacterMember(c, 10);
    CharacterMember(c, 11);
    CharacterMember(c, 12);
    CharacterMember(c, 13);
    CharacterMember(c, 14);
    CharacterMember(c, 15);
    CharacterMember(c, 16);
    CharacterMember(c, 17);
  }

  /** Reading an object whose members are those of `c` gives `c` back with
      NaN turned into null. */
  lemma ReadCharacterFrom(c: Character, j: Json)
    requires j.JObj?
    requires Member(j, "id") == Some(JStr(c.id))
    requires Member(j, "password") == TextJson(c.password)
    requires Member(j, "characterName") == TextJson(c.characterName)
    requires Member(j, "playerName") == TextJson(c.playerName)
    requires Member(j, "species") == TextJson(c.species)
    requires Member(j, "style") == TextJson(c.style)
    requires Member(j, "element") == TextJson(c.element)
    requires Member(j, "updatedAt") == TextJson(c.updatedAt)
    requires Member(j, "hp") == ModifierJson(c.hp)
    requires Member(j, "mp") == ModifierJson(c.mp)
    requires Member(j, "wp") == ModifierJson(c.wp)
    requires Member(j, "gl") == NumJson(c.gl)
    requires Member(j, "abilities") == Some(ObjectOf(AbilitiesEntries(c.abilities)))
    requires Member(j, "skills") == Some(SkillsJson(c.skills))
    requires Member(j, "items") == Some(ItemsJson(c.items))
    requires Member(j, "equipment") == Some(ObjectOf(EquipmentEntries(c.equipment)))
    requires Member(j, "combatValues") == Some(ObjectOf(CombatEntries(c.combat)))
    requires Member(j, "specialChecks") == Some(ObjectOf(SpecialEntries(c.combat)))
    ensures ReadCharacter(j) == Some(c.Stored())
  {
    assert ReadString(Member(j, "id")) == c.id;
    assert ReadText(Member(j, "password")) == c.password by { ReadTextJson(c.password); }
    assert ReadText(Member(j, "characterName")) == c.characterName by { ReadTextJson(c.characterName); }
    assert ReadText(Member(j, "playerName")) == c.playerName by { ReadTextJson(c.playerName); }
    assert ReadText(Member(j, "species")) == c.species by { ReadTextJson(c.species); }
    assert ReadText(Member(j, "style")) == c.style by { ReadTextJson(c.style); }
    assert ReadText(Member(j, "element")) == c.element by { ReadTextJson(c.element); }
    assert ReadText(Member(j, "updatedAt")) == c.updatedAt by { ReadTextJson(c.updatedAt); }
    assert ReadModifier(Member(j, "hp")) == c.hp.Stored() by { ReadModifierJson(c.hp); }
    assert ReadModifier(Member(j, "mp")) == c.mp.Stored() by { ReadModifierJson(c.mp); }
    assert ReadModifier(Member(j, "wp")) == c.wp.Stored() by { ReadModifierJson(c.wp); }
    assert ReadNum(Member(j, "gl")) == c.gl.Stored() by { ReadNumJson(c.gl); }
    assert ReadAbilities(Member(j, "abilities")) == c.abilities.Stored() by { ReadAbilitiesJson(c.abilities); }
    assert ReadSkills(Member(j, "skills")) == StoredSkills(c.skills) by { ReadSkillsJson(c.skills); }
    assert ReadItems(Member(j, "items")) == StoredItems(c.items) by { ReadItemsJson(c.items); }
    assert ReadEquipment(Member(j, "equipment")) == c.equipment.Stored() by { ReadEquipmentJson(c.equipment); }
    assert ReadCombat(Member(j, "combatValues"), Member(j, "specialChecks")) == c.combat.Stored() by {
      ReadCombatJson(c.combat);
    }
    ReadCharacterParts(c, j);
  }

  /** A record whose members each read back as those of `c`. */
  lemma ReadCharacterParts(c: Character, j: Json)
    requires j.JObj?
    requires ReadString(Member(j, "id")) == c.id
    requires ReadText(Member(j, "password")) == c.password
    requires ReadText(Member(j, "characterName")) == c.characterName
    requires ReadText(Member(j, "playerName")) == c.playerName
    requires ReadText(Member(j, "species")) == c.species
    requires ReadText(Member(j, "style")) == c.style
    requires ReadText(Member(j, "element")) == c.element
    requires ReadText(Member(j, "updatedAt")) == c.updatedAt
    requires ReadModifier(Member(j, "hp")) == c.hp.Stored()
    requires ReadModifier(Member(j, "mp")) == c.mp.Stored()
    requires ReadModifier(Member(j, "wp")) == c.wp.Stored()
    requires ReadNum(Member(j, "gl")) == c.gl.Stored()
    requires ReadAbilities(Member(j, "abilities")) == c.abilities.Stored()
    requires ReadSkills(Member(j, "skills")) == StoredSkills(c.skills)
    requires ReadItems(Member(j, "items")) == StoredItems(c.items)
    requires ReadEquipment(Member(j, "equipment")) == c.equipment.Stored()
    requires ReadCombat(Member(j, "combatValues"), Member(j, "specialChecks")) == c.combat.Stored()
    ensures ReadCharacter(j) == Some(c.Stored())
  {
  }

  /** Reading a written record gives it back with NaN turned into null. */
  lemma ReadCharacterJson(c: Character)
    ensures ReadCharacter(CharacterJson(c)) == Some(c.Stored())
  {
    CharacterMembers(c);
    ReadCharacterFrom(c, CharacterJson(c));
  }

  /** The record's plaintext bytes. */
  function RecordBytes(c: Character): bytes {
    Encode(CharacterJson(c))
  }

  /** `JSON.parse` of a record's plaintext; `None` when it does not parse or is
      not an object. */
  function ParseRecord(bs: bytes): Option<Character> {
    match Parse(bs)
    case None => None
    case Some(j) => ReadCharacter(j)
  }

  lemma ParseRecordBytes(c: Character)
    ensures ParseRecord(RecordBytes(c)) == Some(c.Stored())
  {
    ParseEncode(CharacterJson(c));
    ReadCharacterJson(c);
  }

  // ---------------------------------------------------------------------------
  // The index

  function SummaryEntries(s: Summary): seq<Entry> {
    [Entry("id", Some(JStr(s.id))),
     Entry("characterName", Some(JStr(s.characterName))),
     Entry("playerName", Some(JStr(s.playerName))),
     Entry("species", Some(JStr(s.species))),
     Entry("style", Some(JStr(s.style))),
     Entry("element", TextJson(s.element)),
     Entry("updatedAt", Some(JStr(s.updatedAt))),
     Entry("hp", Some(JNum(s.hp))),
     Entry("mp", Some(JNum(s.mp))),
     Entry("wp", Some(JNum(s.wp)))]
  }

  /** An index entry must have every string and number member it is
      written with; only `element` may be absent. */
  function ReadSummary(j: Json): Option<Summary> {
    var id, name, player := Member(j, "id"), Member(j, "characterName"), Member(j, "playerName");
    var species, style, at := Member(j, "species"), Member(j, "style"), Member(j, "updatedAt");
    var hp, mp, wp := Member(j, "hp"), Member(j, "mp"), Member(j, "wp");
    if id.Some? && id.value.JStr? && name.Some? && name.value.JStr? && player.Some? && player.value.JStr?
       && species.Some? && species.value.JStr? && style.Some? && style.value.JStr?
       && at.Some? && at.value.JStr? && hp.Some? && hp.value.JNum? && mp.Some? && mp.value.JNum?
       && wp.Some? && wp.value.JNum?
    then
      Some(Summary(id.value.s, name.value.s, player.value.s, species.value.s, style.value.s,
                   ReadText(Member(j, "element")), at.value.s, hp.value.n, mp.value.n, wp.value.n))
    else None
  }

  /** The index entry's member names, in writing order. */
  const SummaryKeys: seq<string> :=
    ["id", "characterName", "playerName", "species", "style", "element", "updatedAt", "hp", "mp", "wp"]

  lemma SummaryKeysDistinct(s: Summary)
    ensures DistinctKeys(SummaryEntries(s))
  {
    var es := SummaryEntries(s);
    assert forall i :: 0 <= i < |es| ==> es[i].key == SummaryKeys[i];
    assert forall i, j :: 0 <= i < j < |SummaryKeys| ==> SummaryKeys[i] != SummaryKeys[j];
  }

  lemma ReadSummaryJson(s: Summary)
    ensures ReadSummary(ObjectOf(SummaryEntries(s))) == Some(s)
  {
    var es := SummaryEntries(s);
    var j := ObjectOf(es);
    SummaryKeysDistinct(s);
    assert Member(j, "id") == Some(JStr(s.id)) by { MemberObjectOf(es, 0); }
    assert Member(j, "characterName") == Some(JStr(s.characterName)) by { MemberObjectOf(es, 1); }
    assert Member(j, "playerName") == Some(JStr(s.playerName)) by { MemberObjectOf(es, 2); }
    assert Member(j, "species") == Some(JStr(s.species)) by { MemberObjectOf(es, 3); }
    assert Member(j, "style") == Some(JStr(s.style)) by { MemberObjectOf(es, 4); }
    assert Member(j, "element") == TextJson(s.element) by { MemberObjectOf(es, 5); }
    assert Member(j, "updatedAt") == Some(JStr(s.updatedAt)) by { MemberObjectOf(es, 6); }
    assert Member(j, "hp") == Some(JNum(s.hp)) by { MemberObjectOf(es, 7); }
    assert Member(j, "mp") == Some(JNum(s.mp)) by { MemberObjectOf(es, 8); }
    assert Member(j, "wp") == Some(JNum(s.wp)) by { MemberObjectOf(es, 9); }
    ReadSummaryFrom(s, j);
  }

  /** An object whose members are those of `s` reads back as `s`. */
  lemma ReadSummaryFrom(s: Summary, j: Json)
    requires Member(j, "id") == Some(JStr(s.id))
    requires Member(j, "characterName") == Some(JStr(s.characterName))
    requires Member(j, "playerName") == Some(JStr(s.playerName))
    requires Member(j, "species") == Some(JStr(s.species))
    requires Member(j, "style") == Some(JStr(s.style))
    requires Member(j, "element") == TextJson(s.element)
    requires Member(j, "updatedAt") == Some(JStr(s.updatedAt))
    requires Member(j, "hp") == Some(JNum(s.hp))
    requires Member(j, "mp") == Some(JNum(s.mp))
    requires Member(j, "wp") == Some(JNum(s.wp))
    ensures ReadSummary(j) == Some(s)
  {
    ReadTextJson(s.element);
  }

  function IndexJson(xs: seq<Summary>): Json {
    JArr(seq(|xs|, i requires 0 <= i < |xs| => ObjectOf(SummaryEntries(xs[i]))))
  }

  function ReadSummaries(js: seq<Json>): (r: Option<seq<Summary>>)
    ensures r.Some? ==> |r.value| == |js|
  {
    if js == [] then Some([])
    else
      match ReadSummary(js[0])
      case None => None
      case Some(s) =>
        match ReadSummaries(js[1..])
        case None => None
        case Some(ss) => Some([s] + ss)
  }

  lemma {:induction false} ReadSummariesJson(xs: seq<Summary>)
    ensures ReadSummaries(IndexJson(xs).items) == Some(xs)
    decreases |xs|
  {
    if xs != [] {
      ReadSummaryJson(xs[0]);
      assert IndexJson(xs).items[1..] == IndexJson(xs[1..]).items;
      ReadSummariesJson(xs[1..]);
      assert [xs[0]] + xs[1..] == xs;
    }
  }

  function IndexBytes(xs: seq<Summary>): bytes {
    Encode(IndexJson(xs))
  }

  /** The stored index, or nothing when it does not parse as an array of entries. */
  function ParseIndex(bs: bytes): Option<seq<Summary>> {
    match Parse(bs)
    case Some(JArr(js)) => ReadSummaries(js)
    case _ => None
  }

  lemma ParseIndexBytes(xs: seq<Summary>)
    ensures ParseIndex(IndexBytes(xs)) == Some(xs)
  {
    ParseEncode(IndexJson(xs));
    ReadSummariesJson(xs);
  }
}
