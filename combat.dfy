/**
 * The combat section's figures: the magic, dodge, defense and lore bases
 * from the ability totals, the equipment bonus collected over the six slots,
 * each row's total and the damage bonus.
 */
module CombatSection {
  import opened Wrappers
  import opened Js
  import opened Strings
  import opened CharacterTypes
  import opened GameData

  /** `STYLE_MAGIC_TYPE[char.style] || '付与術式'`; an absent style is looked
      up as the key "undefined". An inherited name finds an `Object.prototype`
      member, which is truthy and none of the three labels: that is `None`. */
  function MagicTypeOf(style: Text): (r: Option<MagicType>)
    ensures r.None? <==> InheritedName(style.Interpolated())
    ensures ParseStyle(style.Interpolated()).Some? ==> r == Some(StyleMagic(ParseStyle(style.Interpolated()).value))
    ensures ParseStyle(style.Interpolated()).None? && !InheritedName(style.Interpolated()) ==> r == Some(Enchantment)
  {
    var key := style.Interpolated();
    if InheritedName(key) then None else Some(StyleMagicType(key).GetOr(Enchantment))
  }

  /** An ability total with a missing value counted as 0. */
  function TotalOf(c: Character, a: Ability): int {
    c.abilities.Get(a).total.OrZero()
  }

  datatype Stats = Stats(magic: int, magicType: Option<MagicType>, dodge: int, defense: int, lore: int)

  /** `stats`: the magic base by magic type (0 when the type is none of the
      three), `dodge = mystic + agility + 7`,
      `defense = physical`, `lore = intellect`. */
  function Bases(c: Character): (r: Stats)
    ensures r.magicType == MagicTypeOf(c.style)
    ensures r.dodge == TotalOf(c, Mystic) + TotalOf(c, Agility) + 7
    ensures r.defense == TotalOf(c, Physical) && r.lore == TotalOf(c, Intellect)
  {
    var p, i, m := TotalOf(c, Physical), TotalOf(c, Intellect), TotalOf(c, Mystic);
    var a, pa, af := TotalOf(c, Agility), TotalOf(c, Passion), TotalOf(c, Affection);
    var magicType := MagicTypeOf(c.style);
    var magicBase := match magicType
      case Some(Enchantment) => p + a
      case Some(Chant) => i + pa
      case Some(Divine) => m + af
      case None => 0;
    Stats(magicBase, magicType, m + a + 7, p, i)
  }

  /** The magic base for each style: physical + agility for the two
      enchantment styles (and any unknown style), intellect + passion for the
      two chant styles, mystic + affection for the two divine styles, and 0
      for an inherited name. */
  lemma MagicBaseByStyle(c: Character)
    ensures var st := ParseStyle(c.style.Interpolated());
            && (InheritedName(c.style.Interpolated()) ==> Bases(c).magic == 0)
            && (st == Some(Enchanter) || st == Some(Shapeshifter) || (st.None? && !InheritedName(c.style.Interpolated())) ==>
                  Bases(c).magic == TotalOf(c, Physical) + TotalOf(c, Agility))
            && (st == Some(Caster) || st == Some(Shooter) ==>
                  Bases(c).magic == TotalOf(c, Intellect) + TotalOf(c, Passion))
            && (st == Some(Sacrifa) || st == Some(MysticStyle) ==>
                  Bases(c).magic == TotalOf(c, Mystic) + TotalOf(c, Affection))
  {
  }

  // ---------------------------------------------------------------------------
  // Equipment bonus

  /** What one slot adds for `key`: its dodge or defense modifier, and, under
      the enchantment magic type only, its hit modifier for magic and its
      damage (as a number, 0 when it is not one) for damage. An empty slot adds
      nothing. */
  function SlotBonus(o: Option<EquipmentItem>, key: ModifierKey, mt: Option<MagicType>): int {
    match o
    case None => 0
    case Some(item) =>
      (if key == Dodge then item.dodgeMod.OrZero() else 0)
      + (if key == Defense then item.defenseMod.OrZero() else 0)
      + (if mt == Some(Enchantment) && key == Magic then item.hitMod.OrZero() else 0)
      + (if mt == Some(Enchantment) && key == Damage then TextToNumber(item.damage).OrZero() else 0)
  }

  /** The bonus from the first `n` slots of `Slots`, added in order. */
  function BonusUpTo(eq: Equipment, n: nat, key: ModifierKey, mt: Option<MagicType>): int
    requires n <= |Slots|
  {
    if n == 0 then 0
    else BonusUpTo(eq, n - 1, key, mt) + SlotBonus(eq.Get(Slots[n - 1]), key, mt)
  }

  function EquipBonus(c: Character, key: ModifierKey): int {
    BonusUpTo(c.equipment, |Slots|, key, MagicTypeOf(c.style))
  }

  /** `calculateEquipBonus`: the `forEach` over the six slots. */
  method CalculateEquipBonus(c: Character, key: ModifierKey) returns (total: int)
    ensures total == EquipBonus(c, key)
  {
    total := 0;
    var magicType := MagicTypeOf(c.style);
    for i := 0 to |Slots|
      invariant total == BonusUpTo(c.equipment, i, key, magicType)
    {
      BonusStep(c.equipment, i + 1, key, magicType);
      var item := c.equipment.Get(Slots[i]);
      if item.None? {
        continue;
      }
      if key == Dodge {
        total := total + item.value.dodgeMod.OrZero();
      }
      if key == Defense {
        total := total + item.value.defenseMod.OrZero();
      }
      if magicType == Some(Enchantment) {
        if key == Magic {
          total := total + item.value.hitMod.OrZero();
        }
        if key == Damage {
          total := total + TextToNumber(item.value.damage).OrZero();
        }
      }
    }
  }

  /** The bonus is the six slots' contributions added up. */
  lemma EquipBonusSlots(c: Character, key: ModifierKey)
    ensures var eq, mt := c.equipment, MagicTypeOf(c.style);
            EquipBonus(c, key)
            == SlotBonus(eq.rHand, key, mt) + SlotBonus(eq.lHand, key, mt) + SlotBonus(eq.head, key, mt)
               + SlotBonus(eq.body, key, mt) + SlotBonus(eq.accessory, key, mt) + SlotBonus(eq.guardian, key, mt)
  {
    var eq, mt := c.equipment, MagicTypeOf(c.style);
    SlotsInOrder(eq);
    BonusStep(eq, 1, key, mt);
    BonusStep(eq, 2, key, mt);
    BonusStep(eq, 3, key, mt);
    BonusStep(eq, 4, key, mt);
    BonusStep(eq, 5, key, mt);
    BonusStep(eq, 6, key, mt);
  }

  lemma BonusStep(eq: Equipment, n: nat, key: ModifierKey, mt: Option<MagicType>)
    requires 0 < n <= |Slots|
    ensures BonusUpTo(eq, n, key, mt) == BonusUpTo(eq, n - 1, key, mt) + SlotBonus(eq.Get(Slots[n - 1]), key, mt)
  {
  }

  /** Magic and damage bonuses come only with the enchantment magic type;
      the special checks and the damage-free keys get none from it. */
  lemma {:induction false} NoBonusOutsideEnchantment(eq: Equipment, n: nat, key: ModifierKey, mt: Option<MagicType>)
    requires n <= |Slots|
    requires (mt != Some(Enchantment) && (key == Magic || key == Damage)) || key.IsSpecial()
    ensures BonusUpTo(eq, n, key, mt) == 0
  {
    if n > 0 {
      NoBonusOutsideEnchantment(eq, n - 1, key, mt);
    }
  }

  /** A character with every slot empty gets no equipment bonus. */
  lemma {:induction false} EmptyEquipmentNoBonus(eq: Equipment, n: nat, key: ModifierKey, mt: Option<MagicType>)
    requires n <= |Slots|
    requires forall s :: eq.Get(s).None?
    ensures BonusUpTo(eq, n, key, mt) == 0
  {
    if n > 0 {
      EmptyEquipmentNoBonus(eq, n - 1, key, mt);
    }
  }

  // ---------------------------------------------------------------------------
  // Rows

  /** `baseValue + (isSpecial ? 0 : equipMod) + (isInvalid ? 0 : modifier)`:
      only a NaN modifier is replaced by 0; a missing one makes the total NaN. */
  function RowTotal(base: int, equip: int, isSpecial: bool, modifier: Num): (r: Num)
    ensures modifier.Int? ==> r == Int(base + (if isSpecial then 0 else equip) + modifier.v)
    ensures modifier.NaN? || modifier.Null? ==> r == Int(base + (if isSpecial then 0 else equip))
    ensures modifier.Missing? ==> r.NaN?
  {
    var sum := base + (if isSpecial then 0 else equip);
    if modifier.NaN? then Int(sum) else Add(Int(sum), modifier)
  }

  /** The base of the row for `k`: both special checks use the lore base. */
  function RowBase(c: Character, k: ModifierKey): int
    requires k != Damage
  {
    var s := Bases(c);
    match k
    case Magic => s.magic
    case Dodge => s.dodge
    case Defense => s.defense
    case EnemyLore => s.lore
    case Appraisal => s.lore
  }

  /** The total shown in the row for `k`. */
  function Row(c: Character, k: ModifierKey): Num
    requires k != Damage
  {
    RowTotal(RowBase(c, k), EquipBonus(c, k), k.IsSpecial(), c.combat.Get(k))
  }

  /** The special checks ignore the equipment altogether. */
  lemma SpecialRowsIgnoreEquipment(c: Character, e: Equipment, k: ModifierKey)
    requires k.IsSpecial()
    ensures Row(c.(equipment := e), k) == Row(c, k)
    ensures c.combat.Get(k).Int? ==> Row(c, k) == Int(TotalOf(c, Intellect) + c.combat.Get(k).v)
  {
  }

  /** `damageTotal = equip + (modifier || 0)`, shown as `2D + damageTotal`. */
  function DamageTotal(c: Character): (r: int)
    ensures MagicTypeOf(c.style) != Some(Enchantment) ==> r == c.combat.Get(Damage).OrZero()
  {
    DamageBonusOnlyEnchantment(c);
    EquipBonus(c, Damage) + c.combat.Get(Damage).OrZero()
  }

  lemma DamageBonusOnlyEnchantment(c: Character)
    ensures MagicTypeOf(c.style) != Some(Enchantment) ==> EquipBonus(c, Damage) == 0
  {
    if MagicTypeOf(c.style) != Some(Enchantment) {
      NoBonusOutsideEnchantment(c.equipment, |Slots|, Damage, MagicTypeOf(c.style));
    }
  }
}
