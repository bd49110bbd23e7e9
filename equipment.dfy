/**
 * The equipment table: six slots in a fixed order, the totals row, and the
 * rule that a text cell edits a local copy and hands the change on only when
 * it loses focus with a value different from the stored one.
 */
module EquipmentSection {
  import opened Wrappers
  import opened Js
  import opened CharacterTypes
  import opened GameData
  import opened CharacterActions
  import opened WeightSection
  import opened CombatSection

  datatype SlotRow = SlotRow(key: Slot, title: string)

  /** `SLOTS`: the rows of the table, in order. */
  const SlotRows: seq<SlotRow> :=
    [SlotRow(RHand, "右手"), SlotRow(LHand, "左手"), SlotRow(Head, "頭部"),
     SlotRow(Body, "胴部"), SlotRow(Accessory, "補助防具"), SlotRow(Guardian, "守護魔術")]

  /** The slots of the table's rows, in order. */
  function RowKeys(): seq<Slot> {
    seq(|SlotRows|, i requires 0 <= i < |SlotRows| => SlotRows[i].key)
  }

  /** The table has exactly the six slots, each once, in the order of `Slots`. */
  lemma SlotRowsExact()
    ensures RowKeys() == Slots
    ensures forall i, j :: 0 <= i < j < |Slots| ==> Slots[i] != Slots[j]
    ensures forall s: Slot :: s in Slots
  {
    assert RowKeys() == [RHand, LHand, Head, Body, Accessory, Guardian];
    forall s: Slot ensures s in Slots {
      match s
      case RHand => assert Slots[0] == s;
      case LHand => assert Slots[1] == s;
      case Head => assert Slots[2] == s;
      case Body => assert Slots[3] == s;
      case Accessory => assert Slots[4] == s;
      case Guardian => assert Slots[5] == s;
    }
  }

  // ---------------------------------------------------------------------------
  // Totals

  datatype EquipStats = EquipStats(weight: int, hitMod: int, dodgeMod: int, defenseMod: int, magicDefense: int)

  /** One slot's values, non-numeric ones counted as 0; an empty slot is
      not among the object's values and adds nothing. */
  function SlotStats(o: Option<EquipmentItem>): EquipStats {
    match o
    case None => EquipStats(0, 0, 0, 0, 0)
    case Some(e) =>
      EquipStats(e.weight.OrZero(), e.hitMod.OrZero(), e.dodgeMod.OrZero(), e.defenseMod.OrZero(), e.magicDefense.OrZero())
  }

  function Plus(a: EquipStats, b: EquipStats): EquipStats {
    EquipStats(a.weight + b.weight, a.hitMod + b.hitMod, a.dodgeMod + b.dodgeMod,
               a.defenseMod + b.defenseMod, a.magicDefense + b.magicDefense)
  }

  /** The `reduce` over the values of the first `n` slots. */
  function StatsUpTo(eq: Equipment, n: nat): EquipStats
    requires n <= |Slots|
  {
    if n == 0 then EquipStats(0, 0, 0, 0, 0) else Plus(StatsUpTo(eq, n - 1), SlotStats(eq.Get(Slots[n - 1])))
  }

  datatype Totals = Totals(equip: EquipStats, totalWeight: int, weightLimit: int, isOver: bool)

  /** `totals`: the equipment sums, the carried weight (equipment plus items)
      and the weight limit. */
  function SectionTotals(eq: Equipment, items: seq<Item>, abilities: Abilities, species: Text): Totals {
    var equipStats := StatsUpTo(eq, |Slots|);
    var totalWeight := equipStats.weight + WeightSection.ItemWeight(items);
    var weightLimit := WeightLimit(species, abilities);
    Totals(equipStats, totalWeight, weightLimit, totalWeight > weightLimit)
  }

  /** The summed dodge and defense modifiers are the combat section's
      equipment bonuses, and so is the summed hit modifier under the
      enchantment magic type. */
  lemma {:induction false} StatsUpToAgree(eq: Equipment, n: nat, mt: Option<MagicType>)
    requires n <= |Slots|
    ensures StatsUpTo(eq, n).dodgeMod == BonusUpTo(eq, n, Dodge, mt)
    ensures StatsUpTo(eq, n).defenseMod == BonusUpTo(eq, n, Defense, mt)
    ensures mt == Some(Enchantment) ==> StatsUpTo(eq, n).hitMod == BonusUpTo(eq, n, Magic, mt)
  {
    if n > 0 {
      var o := eq.Get(Slots[n - 1]);
      StatsUpToAgree(eq, n - 1, mt);
      SlotStatsAgree(o, mt);
      assert StatsUpTo(eq, n) == Plus(StatsUpTo(eq, n - 1), SlotStats(o));
      BonusStep(eq, n, Dodge, mt);
      BonusStep(eq, n, Defense, mt);
      BonusStep(eq, n, Magic, mt);
    }
  }

  /** The summed weight is the weight section's equipment weight. */
  lemma {:induction false} StatsWeight(eq: Equipment, n: nat)
    requires n <= |Slots|
    ensures StatsUpTo(eq, n).weight == WeightUpTo(eq, n)
  {
    if n > 0 {
      StatsWeight(eq, n - 1);
    }
  }

  /** One slot's row values are its weight and its combat bonuses. */
  lemma SlotStatsAgree(o: Option<EquipmentItem>, mt: Option<MagicType>)
    ensures SlotStats(o).weight == SlotWeight(o)
    ensures SlotStats(o).dodgeMod == SlotBonus(o, Dodge, mt)
    ensures SlotStats(o).defenseMod == SlotBonus(o, Defense, mt)
    ensures mt == Some(Enchantment) ==> SlotStats(o).hitMod == SlotBonus(o, Magic, mt)
  {
  }

  /** The table's carried weight, limit and overweight verdict are the weight
      section's. */
  lemma TotalsAgreeWeight(c: Character)
    ensures var t := SectionTotals(c.equipment, c.items, c.abilities, c.species);
            && t.totalWeight == TotalWeight(c.equipment, c.items)
            && t.weightLimit == WeightLimit(c.species, c.abilities)
            && (t.isOver <==> IsOverWeight(c))
  {
    var t := SectionTotals(c.equipment, c.items, c.abilities, c.species);
    assert t.totalWeight == TotalWeight(c.equipment, c.items) by {
      StatsWeight(c.equipment, |Slots|);
    }
  }

  /** The table's dodge, defense and (for enchantment) hit totals are the
      combat section's equipment bonuses. */
  lemma TotalsAgreeBonus(c: Character)
    ensures var t := SectionTotals(c.equipment, c.items, c.abilities, c.species);
            && t.equip.dodgeMod == EquipBonus(c, Dodge)
            && t.equip.defenseMod == EquipBonus(c, Defense)
            && (MagicTypeOf(c.style) == Some(Enchantment) ==> t.equip.hitMod == EquipBonus(c, Magic))
  {
    StatsUpToAgree(c.equipment, |Slots|, MagicTypeOf(c.style));
  }

  // ---------------------------------------------------------------------------
  // A row's text cells

  datatype TextField = NameField | DamageField | NotesField

  /** `item[field] || ''` */
  function StoredText(item: EquipmentItem, f: TextField): string {
    match f
    case NameField => item.name.OrElse("")
    case DamageField => item.damage.OrElse("")
    case NotesField => item.notes.OrElse("")
  }

  /** The edit handed on for a text field. */
  function TextEdit(f: TextField, s: string): EquipField {
    match f
    case NameField => EquipName(Str(s))
    case DamageField => EquipDamage(Str(s))
    case NotesField => EquipNotes(Str(s))
  }

  /** `EquipmentRow`'s mirrored text state: the last stored value seen and
      the value being typed, for each of the three text cells. */
  class EquipmentRow {
    var prev: map<TextField, string>
    var local: map<TextField, string>

    ghost predicate Valid()
      reads this
    {
      forall f: TextField :: f in prev && f in local
    }

    /** The local copy shows what is typed until it is committed. */
    ghost predicate InSync(item: EquipmentItem)
      reads this
      requires Valid()
    {
      forall f: TextField :: prev[f] == StoredText(item, f) && local[f] == StoredText(item, f)
    }

    constructor (item: EquipmentItem)
      ensures Valid() && InSync(item)
    {
      prev := map f: TextField | true :: StoredText(item, f);
      local := map f: TextField | true :: StoredText(item, f);
    }

    /** A render: a stored value that changed since the last render replaces
        both the remembered and the local copy; the others are left alone. */
    method Render(item: EquipmentItem)
      requires Valid()
      modifies this
      ensures Valid()
      ensures forall f: TextField :: prev[f] == StoredText(item, f)
      ensures forall f: TextField ::
                local[f] == if StoredText(item, f) != old(prev)[f] then StoredText(item, f) else old(local)[f]
    {
      SyncField(NameField, item);
      SyncField(DamageField, item);
      SyncField(NotesField, item);
    }

    /** One of the three render-time checks. */
    method SyncField(f: TextField, item: EquipmentItem)
      requires Valid()
      modifies this
      ensures Valid()
      ensures prev == old(prev)[f := StoredText(item, f)]
      ensures local == if StoredText(item, f) != old(prev)[f] then old(local)[f := StoredText(item, f)] else old(local)
    {
      var stored := StoredText(item, f);
      if stored != prev[f] {
        prev := prev[f := stored];
        local := local[f := stored];
      }
    }

    /** Typing into a cell changes only its local copy. */
    method Type(f: TextField, s: string)
      requires Valid()
      modifies this
      ensures Valid() && prev == old(prev) && local == old(local)[f := s]
    {
      local := local[f := s];
    }

    /** Leaving a cell: the local value is handed on exactly when it differs
        from the stored one. */
    method Blur(f: TextField, item: EquipmentItem) returns (update: Option<EquipField>)
      requires Valid()
      ensures update.Some? <==> local[f] != StoredText(item, f)
      ensures update.Some? ==> update.value == TextEdit(f, local[f])
      ensures InSync(item) ==> update.None?
    {
      if local[f] != StoredText(item, f) {
        update := Some(TextEdit(f, local[f]));
      } else {
        update := None;
      }
    }
  }

  /** A committed text edit stores the typed text in that cell of the slot,
      after which the row is in sync with the stored item again. */
  lemma CommitStoresText(c: Character, s: Slot, f: TextField, typed: string)
    requires c.equipment.Get(s).Some?
    ensures var r := EquipmentUpdated(c, s, TextEdit(f, typed));
            StoredText(r.equipment.Get(s).value, f) == typed
  {
  }
}
