/**
 * The character record as the sheet stores it. Fields the core never reads
 * (appearance, lifepath, image, master, experience) are not part of the model.
 * Number fields are `Num` (they may be missing, null or NaN), optional string
 * fields are `Text`.
 */
module CharacterTypes {
  import opened Wrappers
  import opened Js

  /** The six ability keys, in the order of `ABILITY_KEYS`. */
  datatype Ability = Physical | Intellect | Mystic | Agility | Passion | Affection

  /** One ability's breakdown. `base` and `adjusted` are written only by the
      initial-ability builder; the other fields by the ability updaters. */
  datatype AbilityScore = AbilityScore(base: Num, bonus: Num, otherModifier: Num, total: Num, adjusted: Num) {
    function Stored(): (r: AbilityScore)
      ensures r.base == base.Stored() && r.bonus == bonus.Stored()
      ensures r.otherModifier == otherModifier.Stored()
      ensures r.total == total.Stored() && r.adjusted == adjusted.Stored()
    {
      AbilityScore(base.Stored(), bonus.Stored(), otherModifier.Stored(), total.Stored(), adjusted.Stored())
    }
  }

  /** A score object with no fields set (`{}`). */
  const EmptyScore := AbilityScore(Missing, Missing, Missing, Missing, Missing)

  datatype Abilities = Abilities(
    physical: AbilityScore, intellect: AbilityScore, mystic: AbilityScore,
    agility: AbilityScore, passion: AbilityScore, affection: AbilityScore)
  {
    function Get(a: Ability): AbilityScore {
      match a
      case Physical => physical
      case Intellect => intellect
      case Mystic => mystic
      case Agility => agility
      case Passion => passion
      case Affection => affection
    }

    /** `{ ...abilities, [a]: s }` */
    function Set(a: Ability, s: AbilityScore): (r: Abilities)
      ensures r.Get(a) == s
      ensures forall b :: b != a ==> r.Get(b) == Get(b)
    {
      match a
      case Physical => this.(physical := s)
      case Intellect => this.(intellect := s)
      case Mystic => this.(mystic := s)
      case Agility => this.(agility := s)
      case Passion => this.(passion := s)
      case Affection => this.(affection := s)
    }

    function Stored(): (r: Abilities)
      ensures forall a :: r.Get(a) == Get(a).Stored()
    {
      Abilities(physical.Stored(), intellect.Stored(), mystic.Stored(),
                agility.Stored(), passion.Stored(), affection.Stored())
    }
  }

  const NoAbilities := Abilities(EmptyScore, EmptyScore, EmptyScore, EmptyScore, EmptyScore, EmptyScore)

  datatype Skill = Skill(id: string, name: string, level: Num, effect: string) {
    function Stored(): Skill { this.(level := level.Stored()) }
  }

  datatype Item = Item(id: string, name: string, weight: Num, quantity: Num, notes: string) {
    function Stored(): Item { this.(weight := weight.Stored(), quantity := quantity.Stored()) }
  }

  function StoredSkills(ks: seq<Skill>): (r: seq<Skill>)
    ensures |r| == |ks| && forall i :: 0 <= i < |ks| ==> r[i] == ks[i].Stored()
  {
    seq(|ks|, i requires 0 <= i < |ks| => ks[i].Stored())
  }

  function StoredItems(ts: seq<Item>): (r: seq<Item>)
    ensures |r| == |ts| && forall i :: 0 <= i < |ts| ==> r[i] == ts[i].Stored()
  {
    seq(|ts|, i requires 0 <= i < |ts| => ts[i].Stored())
  }

  /** One equipment slot's contents (weapon or armour). */
  datatype EquipmentItem = EquipmentItem(
    name: Text, weight: Num, hitMod: Num, damage: Text, range: Text,
    dodgeMod: Num, defenseMod: Num, magicDefense: Num, notes: Text)
  {
    function Stored(): EquipmentItem {
      this.(weight := weight.Stored(), hitMod := hitMod.Stored(), dodgeMod := dodgeMod.Stored(),
            defenseMod := defenseMod.Stored(), magicDefense := magicDefense.Stored())
    }
  }

  /** The six equipment slots, in the order of `SLOTS`. */
  datatype Slot = RHand | LHand | Head | Body | Accessory | Guardian

  const Slots: seq<Slot> := [RHand, LHand, Head, Body, Accessory, Guardian]

  /** `Slots` lists the slots in the order of the record's fields. */
  lemma SlotsInOrder(eq: Equipment)
    ensures |Slots| == 6
    ensures eq.Get(Slots[0]) == eq.rHand && eq.Get(Slots[1]) == eq.lHand && eq.Get(Slots[2]) == eq.head
    ensures eq.Get(Slots[3]) == eq.body && eq.Get(Slots[4]) == eq.accessory && eq.Get(Slots[5]) == eq.guardian
  {
  }

  /** A slot holds an item object, or nothing (`undefined`/`null`). */
  datatype Equipment = Equipment(
    rHand: Option<EquipmentItem>, lHand: Option<EquipmentItem>, head: Option<EquipmentItem>,
    body: Option<EquipmentItem>, accessory: Option<EquipmentItem>, guardian: Option<EquipmentItem>)
  {
    function Get(s: Slot): Option<EquipmentItem> {
      match s
      case RHand => rHand
      case LHand => lHand
      case Head => head
      case Body => body
      case Accessory => accessory
      case Guardian => guardian
    }

    function Set(s: Slot, v: Option<EquipmentItem>): (r: Equipment)
      ensures r.Get(s) == v
      ensures forall t :: t != s ==> r.Get(t) == Get(t)
    {
      match s
      case RHand => this.(rHand := v)
      case LHand => this.(lHand := v)
      case Head => this.(head := v)
      case Body => this.(body := v)
      case Accessory => this.(accessory := v)
      case Guardian => this.(guardian := v)
    }

    function Stored(): (r: Equipment)
      ensures forall s :: r.Get(s) == StoredSlot(Get(s))
    {
      Equipment(StoredSlot(rHand), StoredSlot(lHand), StoredSlot(head),
                StoredSlot(body), StoredSlot(accessory), StoredSlot(guardian))
    }
  }

  function StoredSlot(o: Option<EquipmentItem>): Option<EquipmentItem> {
    if o.Some? then Some(o.value.Stored()) else None
  }

  /** The keys whose `modifier` the combat section edits: the combat values
      (including the damage row) and the special checks. */
  datatype ModifierKey = Magic | Dodge | Defense | Damage | EnemyLore | Appraisal {
    predicate IsSpecial() { EnemyLore? || Appraisal? }
  }

  /** `combatValues` and `specialChecks`, as the modifier of each key. */
  datatype CombatMods = CombatMods(magic: Num, dodge: Num, defense: Num, damage: Num, enemyLore: Num, appraisal: Num) {
    function Get(k: ModifierKey): Num {
      match k
      case Magic => magic
      case Dodge => dodge
      case Defense => defense
      case Damage => damage
      case EnemyLore => enemyLore
      case Appraisal => appraisal
    }

    function Set(k: ModifierKey, v: Num): (r: CombatMods)
      ensures r.Get(k) == v
      ensures forall j :: j != k ==> r.Get(j) == Get(j)
    {
      match k
      case Magic => this.(magic := v)
      case Dodge => this.(dodge := v)
      case Defense => this.(defense := v)
      case Damage => this.(damage := v)
      case EnemyLore => this.(enemyLore := v)
      case Appraisal => this.(appraisal := v)
    }

    function Stored(): (r: CombatMods)
      ensures forall k :: r.Get(k) == Get(k).Stored()
    {
      CombatMods(magic.Stored(), dodge.Stored(), defense.Stored(), damage.Stored(),
                 enemyLore.Stored(), appraisal.Stored())
    }
  }

  /** The three resources whose `modifier` the resource section edits. */
  datatype Resource = Hp | Mp | Wp

  datatype Character = Character(
    id: string,
    password: Text,
    characterName: Text,
    playerName: Text,
    species: Text,
    style: Text,
    element: Text,
    updatedAt: Text,
    hp: Num,            // hp.modifier
    mp: Num,            // mp.modifier
    wp: Num,            // wp.modifier
    gl: Num,
    abilities: Abilities,
    skills: seq<Skill>,
    items: seq<Item>,
    equipment: Equipment,
    combat: CombatMods)
  {
    function Modifier(r: Resource): Num {
      match r
      case Hp => hp
      case Mp => mp
      case Wp => wp
    }

    /** The record as it reads back after being written as JSON: every NaN
        becomes null, nothing else changes. */
    function Stored(): (r: Character)
      ensures r.id == id && r.password == password && r.characterName == characterName
      ensures r.updatedAt == updatedAt && r.style == style && r.species == species
      ensures r.hp == hp.Stored() && r.mp == mp.Stored() && r.wp == wp.Stored()
      ensures |r.skills| == |skills| && |r.items| == |items|
    {
      this.(hp := hp.Stored(), mp := mp.Stored(), wp := wp.Stored(), gl := gl.Stored(),
            abilities := abilities.Stored(),
            skills := StoredSkills(skills), items := StoredItems(items),
            equipment := equipment.Stored(), combat := combat.Stored())
    }
  }

  /** One entry of the character index (`CharacterSummary`). */
  datatype Summary = Summary(
    id: string,
    characterName: string,
    playerName: string,
    species: string,
    style: string,
    element: Text,
    updatedAt: string,
    hp: int,
    mp: int,
    wp: int)
}
