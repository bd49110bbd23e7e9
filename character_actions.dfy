/**
 * The edit-screen state updaters: each takes the current record and returns
 * the next one, as the `setChar(prev => ...)` callbacks do. Ability totals
 * are recomputed from the species, style and element tables whenever an
 * ability input changes.
 */
module CharacterActions {
  import opened Wrappers
  import opened Js
  import opened Strings
  import opened CharacterTypes
  import opened GameData

  // ---------------------------------------------------------------------------
  // Ability totals

  /** `Math.floor((base + bonus) / 3) + styleBonus + elementBonus + other`. */
  function AbilityTotal(sp: Species, st: Style, el: Element, a: Ability, bonus: int, other: int): (r: int)
    ensures 3 * (r - StyleBonus(st, a) - ElementBonus(el, a) - other) <= SpeciesBase(sp, a) + bonus
    ensures SpeciesBase(sp, a) + bonus < 3 * (r - StyleBonus(st, a) - ElementBonus(el, a) - other) + 3
  {
    (SpeciesBase(sp, a) + bonus) / 3 + StyleBonus(st, a) + ElementBonus(el, a) + other
  }

  /** One score after the recomputation: bonus and other modifier with
      missing values made 0, and the new total; `base` and `adjusted` kept. */
  function RecomputedScore(s: AbilityScore, sp: Species, st: Style, el: Element, a: Ability): AbilityScore {
    var bonus, other := s.bonus.OrZero(), s.otherModifier.OrZero();
    s.(bonus := Int(bonus), otherModifier := Int(other), total := Int(AbilityTotal(sp, st, el, a, bonus, other)))
  }

  /** The species, style and element are all set (non-empty). */
  predicate Complete(c: Character) {
    c.species.Truthy() && c.style.Truthy() && c.element.Truthy()
  }

  /** The record after `updateAbilities` (given the merged record): unchanged
      when species, style or element is not set; `None` where a table lookup
      of an unknown key throws; otherwise every ability recomputed. */
  function RecomputedAbilities(next: Character): Option<Character> {
    if !Complete(next) then Some(next)
    else
      match (ParseSpecies(next.species.s), ParseStyle(next.style.s), ParseElement(next.element.s))
      case (Some(sp), Some(st), Some(el)) =>
        var abs := next.abilities;
        Some(next.(abilities := Abilities(
          RecomputedScore(abs.physical, sp, st, el, Physical),
          RecomputedScore(abs.intellect, sp, st, el, Intellect),
          RecomputedScore(abs.mystic, sp, st, el, Mystic),
          RecomputedScore(abs.agility, sp, st, el, Agility),
          RecomputedScore(abs.passion, sp, st, el, Passion),
          RecomputedScore(abs.affection, sp, st, el, Affection))))
      case _ => None
  }

  /** `updateAbilities`: the `ABILITY_KEYS.forEach` loop filling the new abilities. */
  method UpdateAbilities(next: Character) returns (r: Option<Character>)
    ensures r == RecomputedAbilities(next)
  {
    if !Complete(next) {
      return Some(next);
    }
    var species, style, element := ParseSpecies(next.species.s), ParseStyle(next.style.s), ParseElement(next.element.s);
    if species.None? || style.None? || element.None? {
      return None;
    }
    var sp, st, el := species.value, style.value, element.value;
    var newAbilities := next.abilities;
    for i := 0 to |AbilityKeys|
      invariant forall a ::
        newAbilities.Get(a) == if IndexOf(a) < i then RecomputedScore(next.abilities.Get(a), sp, st, el, a) else next.abilities.Get(a)
    {
      var key := AbilityKeys[i];
      assert IndexOf(key) == i;
      newAbilities := newAbilities.Set(key, RecomputedScore(next.abilities.Get(key), sp, st, el, key));
    }
    r := Some(next.(abilities := newAbilities));
    assert newAbilities == RecomputedAbilities(next).value.abilities by {
      var want := RecomputedAbilities(next).value.abilities;
      assert forall a :: newAbilities.Get(a) == want.Get(a) by {
        forall a ensures newAbilities.Get(a) == want.Get(a) {
          assert IndexOf(a) < |AbilityKeys|;
        }
      }
      AbilitiesExtensional(newAbilities, want);
    }
  }

  lemma AbilitiesExtensional(x: Abilities, y: Abilities)
    requires forall a :: x.Get(a) == y.Get(a)
    ensures x == y
  {
    assert x.physical == y.Get(Physical) && x.intellect == y.Get(Intellect) && x.mystic == y.Get(Mystic);
    assert x.agility == y.Get(Agility) && x.passion == y.Get(Passion) && x.affection == y.Get(Affection);
  }

  /** What the recomputation promises: with the tables found, every ability's
      bonus and other modifier become numbers (missing ones 0), its total is
      `floor((base + bonus) / 3) + style bonus + element bonus + other`, its
      `base` and `adjusted` are kept, and nothing outside the abilities changes. */
  lemma RecomputedAbilitiesCorrect(next: Character)
    ensures !Complete(next) ==> RecomputedAbilities(next) == Some(next)
    ensures Complete(next) ==>
              (RecomputedAbilities(next).Some? <==>
                 ParseSpecies(next.species.s).Some? && ParseStyle(next.style.s).Some? && ParseElement(next.element.s).Some?)
    ensures RecomputedAbilities(next).Some? ==> RecomputedAbilities(next).value.(abilities := next.abilities) == next
    ensures Complete(next) && RecomputedAbilities(next).Some? ==>
              var sp, st, el := ParseSpecies(next.species.s).value, ParseStyle(next.style.s).value, ParseElement(next.element.s).value;
              forall a ::
                var before, after := next.abilities.Get(a), RecomputedAbilities(next).value.abilities.Get(a);
                && after.bonus == Int(before.bonus.OrZero())
                && after.otherModifier == Int(before.otherModifier.OrZero())
                && after.total == Int(AbilityTotal(sp, st, el, a, before.bonus.OrZero(), before.otherModifier.OrZero()))
                && after.base == before.base && after.adjusted == before.adjusted
  {
    if Complete(next) && RecomputedAbilities(next).Some? {
      var sp, st, el := ParseSpecies(next.species.s).value, ParseStyle(next.style.s).value, ParseElement(next.element.s).value;
      var after := RecomputedAbilities(next).value.abilities;
      forall a ensures after.Get(a) == RecomputedScore(next.abilities.Get(a), sp, st, el, a) {
      }
    }
  }

  /** Recomputing twice gives what recomputing once gives. */
  lemma RecomputedAbilitiesIdempotent(next: Character)
    requires RecomputedAbilities(next).Some?
    ensures RecomputedAbilities(RecomputedAbilities(next).value) == RecomputedAbilities(next)
  {
    RecomputedAbilitiesCorrect(next);
    var once := RecomputedAbilities(next).value;
    RecomputedAbilitiesCorrect(once);
    if Complete(next) {
      var twice := RecomputedAbilities(once).value;
      forall a ensures twice.abilities.Get(a) == once.abilities.Get(a) {
      }
      AbilitiesExtensional(twice.abilities, once.abilities);
    }
  }

  /** A style and an element together add four points over the six abilities. */
  lemma TableBonusesTotal(st: Style, el: Element)
    ensures (StyleBonus(st, Physical) + StyleBonus(st, Intellect) + StyleBonus(st, Mystic)
             + StyleBonus(st, Agility) + StyleBonus(st, Passion) + StyleBonus(st, Affection)) == 3
    ensures (ElementBonus(el, Physical) + ElementBonus(el, Intellect) + ElementBonus(el, Mystic)
             + ElementBonus(el, Agility) + ElementBonus(el, Passion) + ElementBonus(el, Affection)) == 1
  {
  }

  /** With a bonus the cap check accepts (`base + bonus <= 12`, not negative)
      and no other modifier, an ability total lies between 1 and 6. */
  lemma AbilityTotalRange(sp: Species, st: Style, el: Element, a: Ability, bonus: int)
    requires 0 <= bonus && SpeciesBase(sp, a) + bonus <= 12
    ensures 1 <= AbilityTotal(sp, st, el, a, bonus, 0) <= 6
  {
    SpeciesBaseRange(sp, a);
  }

  // ---------------------------------------------------------------------------
  // Bonus and other-modifier inputs

  /** `Number.isNaN(val) ? 0 : Math.max(0, val)` */
  function SafeBonus(val: Num): (r: int)
    requires val.NaN? || val.Int?
    ensures r >= 0
    ensures val.NaN? ==> r == 0
    ensures val.Int? ==> r == if val.v < 0 then 0 else val.v
  {
    if val.NaN? then 0 else if val.v < 0 then 0 else val.v
  }

  /** The bonuses (`|| 0`) of the abilities in `keys` other than `a`. */
  function OtherBonuses(abs: Abilities, keys: seq<Ability>, a: Ability): int {
    if keys == [] then 0
    else (if keys[0] == a then 0 else abs.Get(keys[0]).bonus.OrZero()) + OtherBonuses(abs, keys[1..], a)
  }

  /** The six bonuses (`|| 0`) added up. */
  function TotalBonus(abs: Abilities): int {
    abs.physical.bonus.OrZero() + abs.intellect.bonus.OrZero() + abs.mystic.bonus.OrZero()
    + abs.agility.bonus.OrZero() + abs.passion.bonus.OrZero() + abs.affection.bonus.OrZero()
  }

  /** The other bonuses and the bonus of `a` make up all six. */
  lemma OtherBonusesSplit(abs: Abilities, a: Ability)
    ensures OtherBonuses(abs, AbilityKeys, a) + abs.Get(a).bonus.OrZero() == TotalBonus(abs)
  {
    var k := AbilityKeys;
    var k1, k2, k3, k4, k5 := k[1..], k[2..], k[3..], k[4..], k[5..];
    assert k1 == [Intellect, Mystic, Agility, Passion, Affection] && k1[1..] == k2;
    assert k2 == [Mystic, Agility, Passion, Affection] && k2[1..] == k3;
    assert k3 == [Agility, Passion, Affection] && k3[1..] == k4;
    assert k4 == [Passion, Affection] && k4[1..] == k5;
    assert k5 == [Affection] && k5[1..] == [];
    var b := (x: Ability) => if x == a then 0 else abs.Get(x).bonus.OrZero();
    assert OtherBonuses(abs, k5, a) == b(Affection);
    assert OtherBonuses(abs, k4, a) == b(Passion) + b(Affection);
    assert OtherBonuses(abs, k3, a) == b(Agility) + b(Passion) + b(Affection);
    assert OtherBonuses(abs, k2, a) == b(Mystic) + b(Agility) + b(Passion) + b(Affection);
    assert OtherBonuses(abs, k1, a) == b(Intellect) + b(Mystic) + b(Agility) + b(Passion) + b(Affection);
  }

  datatype BonusError = BonusError(key: Ability, message: string)

  function CapMessage(a: Ability): string {
    "「" + AbilityLabel(a) + "基本値 + ボーナス」は12が上限です"
  }

  const SumMessage := "ボーナスの合計は5点までです"

  /** The error `handleAbilitiesBonusChange` reports for a new bonus: the cap
      error when base plus bonus exceeds 12, else the sum error when all
      bonuses would exceed 5, else none. A missing species counts as human. */
  function BonusCheck(c: Character, a: Ability, val: Num): (r: Option<BonusError>)
    requires val.NaN? || val.Int?
    ensures r.Some? ==> r.value.key == a
  {
    var safe := SafeBonus(val);
    var base := SpeciesBaseOrZero(c.species.OrElse("human"), a);
    if base + safe > 12 then Some(BonusError(a, CapMessage(a)))
    else if OtherBonuses(c.abilities, AbilityKeys, a) + safe > 5 then Some(BonusError(a, SumMessage))
    else None
  }

  /** The record after a bonus change: it is applied whatever the check says. */
  function BonusChanged(c: Character, a: Ability, val: Num): Option<Character>
    requires val.NaN? || val.Int?
  {
    var abs := c.abilities;
    RecomputedAbilities(c.(abilities := abs.Set(a, abs.Get(a).(bonus := Int(SafeBonus(val))))))
  }

  /** Both directions of the check, and the bonus stored in every case. */
  lemma BonusChangeCorrect(c: Character, a: Ability, val: Num)
    requires val.NaN? || val.Int?
    ensures var base := SpeciesBaseOrZero(c.species.OrElse("human"), a);
            var changed := c.abilities.Set(a, c.abilities.Get(a).(bonus := Int(SafeBonus(val))));
            && ((BonusCheck(c, a, val).Some? && BonusCheck(c, a, val).value.message == CapMessage(a)) <==>
                base + SafeBonus(val) > 12)
            && (BonusCheck(c, a, val) == Some(BonusError(a, SumMessage)) <==>
                base + SafeBonus(val) <= 12 && TotalBonus(changed) > 5)
            && (BonusCheck(c, a, val).None? <==> base + SafeBonus(val) <= 12 && TotalBonus(changed) <= 5)
    ensures BonusChanged(c, a, val).Some? ==> BonusChanged(c, a, val).value.abilities.Get(a).bonus == Int(SafeBonus(val))
  {
    var changed := c.abilities.Set(a, c.abilities.Get(a).(bonus := Int(SafeBonus(val))));
    OtherBonusesSplit(changed, a);
    OtherBonusesUnchanged(c.abilities, changed, AbilityKeys, a);
    assert CapMessage(a) != SumMessage by {
      assert CapMessage(a)[0] == '「';
    }
    var next := c.(abilities := changed);
    RecomputedAbilitiesCorrect(next);
  }

  /** Changing the score of `a` does not change the other bonuses of `a`. */
  lemma {:induction false} OtherBonusesUnchanged(x: Abilities, y: Abilities, keys: seq<Ability>, a: Ability)
    requires forall b :: b != a ==> x.Get(b) == y.Get(b)
    ensures OtherBonuses(x, keys, a) == OtherBonuses(y, keys, a)
    decreases |keys|
  {
    if keys != [] {
      OtherBonusesUnchanged(x, y, keys[1..], a);
    }
  }

  /** The record after an other-modifier change. */
  function OtherModifierChanged(c: Character, a: Ability, val: Num): (r: Option<Character>)
    ensures r.Some? ==> r.value.abilities.Get(a).otherModifier == if Complete(c) then Int(val.OrZero()) else val
  {
    var abs := c.abilities;
    var next := c.(abilities := abs.Set(a, abs.Get(a).(otherModifier := val)));
    RecomputedAbilitiesCorrect(next);
    RecomputedAbilities(next)
  }

  // ---------------------------------------------------------------------------
  // Skills

  function NewSkill(id: string): Skill {
    Skill(id, "", Int(1), "")
  }

  function AddSkill(c: Character, id: string): (r: Character)
    ensures |r.skills| == |c.skills| + 1 && r.skills[..|c.skills|] == c.skills
    ensures r.skills[|c.skills|] == NewSkill(id)
    ensures r.(skills := c.skills) == c
  {
    c.(skills := c.skills + [NewSkill(id)])
  }

  /** A skill counts as filled in when its name or effect has non-blank text
      or its level is not exactly 1. */
  predicate HasInput(k: Skill) {
    Trim(k.name) != "" || Trim(k.effect) != "" || k.level != Int(1)
  }

  /** `handleSkillsRemove`; `confirmed` is the user's answer to the prompt
      shown for a filled-in skill. The skill with id "s1" is never removed. */
  function RemoveSkill(c: Character, i: nat, confirmed: bool): (r: Character)
    requires i < |c.skills|
    ensures c.skills[i].id == "s1" ==> r == c
    ensures c.skills[i].id != "s1" && HasInput(c.skills[i]) && !confirmed ==> r == c
    ensures c.skills[i].id != "s1" && (!HasInput(c.skills[i]) || confirmed) ==>
              r.skills == c.skills[..i] + c.skills[i + 1..]
    ensures r.(skills := c.skills) == c
  {
    var target := c.skills[i];
    if target.id == "s1" then c
    else if HasInput(target) && !confirmed then c
    else c.(skills := c.skills[..i] + c.skills[i + 1..])
  }

  /** Removing never loses a skill with id "s1", and at most one skill goes. */
  lemma RemoveSkillKeepsProtected(c: Character, i: nat, confirmed: bool)
    requires i < |c.skills|
    ensures forall k :: k in c.skills && k.id == "s1" ==> k in RemoveSkill(c, i, confirmed).skills
    ensures |c.skills| - 1 <= |RemoveSkill(c, i, confirmed).skills| <= |c.skills|
  {
    if c.skills[i].id != "s1" && (!HasInput(c.skills[i]) || confirmed) {
      forall k | k in c.skills && k.id == "s1" ensures k in c.skills[..i] + c.skills[i + 1..] {
        RemoveAtKeeps(c.skills, i, k);
      }
    }
  }

  lemma RemoveAtKeeps<T>(s: seq<T>, i: nat, k: T)
    requires i < |s| && k in s && k != s[i]
    ensures k in s[..i] + s[i + 1..]
  {
    var j :| 0 <= j < |s| && s[j] == k;
    if j < i {
      assert (s[..i] + s[i + 1..])[j] == k;
    } else {
      assert (s[..i] + s[i + 1..])[j - 1] == k;
    }
  }

  /** A skill just added has no input, so removing it needs no confirmation
      and gives the record back. */
  lemma RemoveAddedSkill(c: Character, id: string, confirmed: bool)
    requires id != "s1"
    ensures RemoveSkill(AddSkill(c, id), |c.skills|, confirmed) == c
  {
    NewSkillEmpty(id);
    var s := c.skills + [NewSkill(id)];
    assert s[..|c.skills|] + s[|c.skills| + 1..] == c.skills;
  }

  lemma NewSkillEmpty(id: string)
    ensures !HasInput(NewSkill(id))
  {
    assert AllWhitespace("");
  }

  datatype SkillField = SkillName(name: string) | SkillLevel(level: Num) | SkillEffect(effect: string)

  /** `{ ...skill, [field]: value }` */
  function EditSkill(k: Skill, f: SkillField): (r: Skill)
    ensures r.id == k.id
    ensures r.name == (if f.SkillName? then f.name else k.name)
    ensures r.level == (if f.SkillLevel? then f.level else k.level)
    ensures r.effect == (if f.SkillEffect? then f.effect else k.effect)
  {
    match f
    case SkillName(n) => k.(name := n)
    case SkillLevel(l) => k.(level := l)
    case SkillEffect(e) => k.(effect := e)
  }

  /** `handleSkillsUpdate`: only the addressed skill changes. */
  function UpdateSkill(c: Character, i: nat, f: SkillField): (r: Character)
    requires i < |c.skills|
    ensures |r.skills| == |c.skills| && r.skills[i] == EditSkill(c.skills[i], f)
    ensures forall j :: 0 <= j < |c.skills| && j != i ==> r.skills[j] == c.skills[j]
    ensures r.(skills := c.skills) == c
  {
    c.(skills := c.skills[i := EditSkill(c.skills[i], f)])
  }

  // ---------------------------------------------------------------------------
  // Items

  function NewItem(id: string): Item {
    Item(id, "", Int(1), Int(1), "")
  }

  function AddItem(c: Character, id: string): (r: Character)
    ensures |r.items| == |c.items| + 1 && r.items[..|c.items|] == c.items
    ensures r.items[|c.items|] == NewItem(id)
    ensures r.(items := c.items) == c
  {
    c.(items := c.items + [NewItem(id)])
  }

  /** `handleItemsRemove`: `splice(i, 1)` on a copy; an index past the end
      removes nothing. */
  function RemoveItem(c: Character, i: nat): (r: Character)
    ensures i < |c.items| ==> r.items == c.items[..i] + c.items[i + 1..]
    ensures i >= |c.items| ==> r == c
    ensures r.(items := c.items) == c
  {
    if i < |c.items| then c.(items := c.items[..i] + c.items[i + 1..]) else c
  }

  lemma RemoveAddedItem(c: Character, id: string)
    ensures RemoveItem(AddItem(c, id), |c.items|) == c
  {
    var a := AddItem(c, id);
    assert a.items[..|c.items|] + a.items[|c.items| + 1..] == c.items;
  }

  datatype ItemField = ItemName(name: string) | ItemWeight(weight: Num) | ItemQuantity(quantity: Num) | ItemNotes(notes: string)

  function EditItem(t: Item, f: ItemField): (r: Item)
    ensures r.id == t.id
    ensures r.name == (if f.ItemName? then f.name else t.name)
    ensures r.weight == (if f.ItemWeight? then f.weight else t.weight)
    ensures r.quantity == (if f.ItemQuantity? then f.quantity else t.quantity)
    ensures r.notes == (if f.ItemNotes? then f.notes else t.notes)
  {
    match f
    case ItemName(n) => t.(name := n)
    case ItemWeight(w) => t.(weight := w)
    case ItemQuantity(q) => t.(quantity := q)
    case ItemNotes(n) => t.(notes := n)
  }

  /** `handleItemsUpdate`: only the addressed item changes. */
  function UpdateItem(c: Character, i: nat, f: ItemField): (r: Character)
    requires i < |c.items|
    ensures |r.items| == |c.items| && r.items[i] == EditItem(c.items[i], f)
    ensures forall j :: 0 <= j < |c.items| && j != i ==> r.items[j] == c.items[j]
    ensures r.(items := c.items) == c
  {
    c.(items := c.items[i := EditItem(c.items[i], f)])
  }

  // ---------------------------------------------------------------------------
  // Combat modifiers, equipment, resources, GL

  /** `handleCombatModifierChange`: the modifier of one combat or special key. */
  function CombatModifierChanged(c: Character, k: ModifierKey, v: Num): (r: Character)
    ensures r.combat.Get(k) == v
    ensures forall j :: j != k ==> r.combat.Get(j) == c.combat.Get(j)
    ensures r.(combat := c.combat) == c
  {
    c.(combat := c.combat.Set(k, v))
  }

  datatype EquipField =
    | EquipName(name: Text) | EquipWeight(weight: Num) | EquipHitMod(hitMod: Num) | EquipDamage(damage: Text)
    | EquipRange(range: Text) | EquipDodgeMod(dodgeMod: Num) | EquipDefenseMod(defenseMod: Num)
    | EquipMagicDefense(magicDefense: Num) | EquipNotes(notes: Text)

  /** An item object with no fields (`{ ...undefined }`). */
  const EmptyEquipment := EquipmentItem(Absent, Missing, Missing, Absent, Absent, Missing, Missing, Missing, Absent)

  function EditEquipment(e: EquipmentItem, f: EquipField): EquipmentItem {
    match f
    case EquipName(x) => e.(name := x)
    case EquipWeight(x) => e.(weight := x)
    case EquipHitMod(x) => e.(hitMod := x)
    case EquipDamage(x) => e.(damage := x)
    case EquipRange(x) => e.(range := x)
    case EquipDodgeMod(x) => e.(dodgeMod := x)
    case EquipDefenseMod(x) => e.(defenseMod := x)
    case EquipMagicDefense(x) => e.(magicDefense := x)
    case EquipNotes(x) => e.(notes := x)
  }

  /** `handleEquipmentUpdate`: one field of one slot; an empty slot becomes
      an item with just that field. */
  function EquipmentUpdated(c: Character, s: Slot, f: EquipField): (r: Character)
    ensures r.equipment.Get(s).Some?
    ensures c.equipment.Get(s).Some? ==> r.equipment.Get(s).value == EditEquipment(c.equipment.Get(s).value, f)
    ensures c.equipment.Get(s).None? ==> r.equipment.Get(s).value == EditEquipment(EmptyEquipment, f)
    ensures forall t :: t != s ==> r.equipment.Get(t) == c.equipment.Get(t)
    ensures r.(equipment := c.equipment) == c
  {
    var old_ := c.equipment.Get(s).GetOr(EmptyEquipment);
    c.(equipment := c.equipment.Set(s, Some(EditEquipment(old_, f))))
  }

  /** Editing one field leaves the other eight as they were. */
  lemma EditEquipmentOnlyField(e: EquipmentItem, f: EquipField)
    ensures var r := EditEquipment(e, f);
            && (r.name == if f.EquipName? then f.name else e.name)
            && (r.weight == if f.EquipWeight? then f.weight else e.weight)
            && (r.hitMod == if f.EquipHitMod? then f.hitMod else e.hitMod)
            && (r.damage == if f.EquipDamage? then f.damage else e.damage)
            && (r.range == if f.EquipRange? then f.range else e.range)
            && (r.dodgeMod == if f.EquipDodgeMod? then f.dodgeMod else e.dodgeMod)
            && (r.defenseMod == if f.EquipDefenseMod? then f.defenseMod else e.defenseMod)
            && (r.magicDefense == if f.EquipMagicDefense? then f.magicDefense else e.magicDefense)
            && (r.notes == if f.EquipNotes? then f.notes else e.notes)
  {
  }

  /** `handleResourceUpdate`: the modifier of HP, MP or WP. */
  function ResourceUpdated(c: Character, res: Resource, v: Num): (r: Character)
    ensures r.Modifier(res) == v
    ensures forall q :: q != res ==> r.Modifier(q) == c.Modifier(q)
    ensures r.(hp := c.hp, mp := c.mp, wp := c.wp) == c
  {
    match res
    case Hp => c.(hp := v)
    case Mp => c.(mp := v)
    case Wp => c.(wp := v)
  }

  /** `Math.max(0, Math.min(val, 6))`; NaN stays NaN. */
  function ClampGl(val: Num): (r: Num)
    requires val.NaN? || val.Int?
    ensures val.NaN? <==> r.NaN?
    ensures r.Int? ==> 0 <= r.v <= 6
    ensures val.Int? && 0 <= val.v <= 6 ==> r == val
    ensures val.Int? && val.v < 0 ==> r == Int(0)
    ensures val.Int? && val.v > 6 ==> r == Int(6)
  {
    if val.NaN? then NaN
    else Int(if val.v < 0 then 0 else if val.v > 6 then 6 else val.v)
  }

  lemma ClampGlIdempotent(val: Num)
    requires val.NaN? || val.Int?
    ensures ClampGl(ClampGl(val)) == ClampGl(val)
  {
  }

  function GlUpdated(c: Character, val: Num): (r: Character)
    requires val.NaN? || val.Int?
    ensures r.gl == ClampGl(val) && r.(gl := c.gl) == c
  {
    c.(gl := ClampGl(val))
  }

  // ---------------------------------------------------------------------------
  // Submit

  /** `handleSubmit`: a record without an id gets the freshly generated one. */
  function AssignId(c: Character, freshId: string): (r: Character)
    ensures c.id != "" ==> r == c
    ensures c.id == "" ==> r == c.(id := freshId)
    ensures freshId != "" ==> r.id != ""
  {
    if c.id == "" then c.(id := freshId) else c
  }
}
