/**
 * The carrying check: the weight limit is the species' physical base plus
 * the physical bonus, the carried weight is the equipment's weight plus each
 * item's weight times its quantity, and the sheet is overweight when the
 * carried weight is strictly above the limit.
 */
module WeightSection {
  import opened Wrappers
  import opened Js
  import opened CharacterTypes
  import opened GameData

  /** `SPECIES_DATA[species]?.abilities.physical || 0` plus `physical.bonus || 0`. */
  function WeightLimit(species: Text, abilities: Abilities): (r: int)
    ensures ParseSpecies(species.Interpolated()).None? ==> r == abilities.physical.bonus.OrZero()
    ensures ParseSpecies(species.Interpolated()).Some? ==>
              r == SpeciesBase(ParseSpecies(species.Interpolated()).value, Physical) + abilities.physical.bonus.OrZero()
  {
    SpeciesBaseOrZero(species.Interpolated(), Physical) + abilities.physical.bonus.OrZero()
  }

  /** One slot's weight, 0 for an empty slot or a non-numeric weight. */
  function SlotWeight(o: Option<EquipmentItem>): int {
    if o.Some? then o.value.weight.OrZero() else 0
  }

  /** The weight of the first `n` slots of `Slots`. */
  function WeightUpTo(eq: Equipment, n: nat): int
    requires n <= |Slots|
  {
    if n == 0 then 0 else WeightUpTo(eq, n - 1) + SlotWeight(eq.Get(Slots[n - 1]))
  }

  function EquipWeight(eq: Equipment): int {
    WeightUpTo(eq, |Slots|)
  }

  lemma WeightStep(eq: Equipment, n: nat)
    requires 0 < n <= |Slots|
    ensures WeightUpTo(eq, n) == WeightUpTo(eq, n - 1) + SlotWeight(eq.Get(Slots[n - 1]))
  {
  }

  /** The equipment weight is the six slot weights added up. */
  lemma EquipWeightSlots(eq: Equipment)
    ensures EquipWeight(eq) == SlotWeight(eq.rHand) + SlotWeight(eq.lHand) + SlotWeight(eq.head)
                               + SlotWeight(eq.body) + SlotWeight(eq.accessory) + SlotWeight(eq.guardian)
  {
    SlotsInOrder(eq);
    WeightStep(eq, 1);
    WeightStep(eq, 2);
    WeightStep(eq, 3);
    WeightStep(eq, 4);
    WeightStep(eq, 5);
    WeightStep(eq, 6);
  }

  /** One item's weight: `(weight || 0) * (quantity || 0)`. */
  function ItemLoad(t: Item): int {
    t.weight.OrZero() * t.quantity.OrZero()
  }

  /** `items.reduce(...)`: the items' weights added up, 0 with no items. */
  function ItemWeight(items: seq<Item>): int
    decreases |items|
  {
    if items == [] then 0 else ItemLoad(items[0]) + ItemWeight(items[1..])
  }

  /** The item weight of two lists one after the other. */
  lemma {:induction false} ItemWeightAppend(a: seq<Item>, b: seq<Item>)
    ensures ItemWeight(a + b) == ItemWeight(a) + ItemWeight(b)
    decreases |a|
  {
    if a != [] {
      assert (a + b)[1..] == a[1..] + b;
      ItemWeightAppend(a[1..], b);
    } else {
      assert a + b == b;
    }
  }

  function TotalWeight(eq: Equipment, items: seq<Item>): int {
    EquipWeight(eq) + ItemWeight(items)
  }

  /** Overweight exactly when the carried weight is strictly above the limit. */
  predicate IsOverWeight(c: Character) {
    TotalWeight(c.equipment, c.items) > WeightLimit(c.species, c.abilities)
  }

  /** A new item (weight 1, quantity 1) adds exactly one to the carried weight;
      removing an item takes off exactly its own load. */
  lemma ItemWeightAddRemove(items: seq<Item>, t: Item, i: nat)
    ensures ItemWeight(items + [t]) == ItemWeight(items) + ItemLoad(t)
    ensures t.weight == Int(1) && t.quantity == Int(1) ==> ItemWeight(items + [t]) == ItemWeight(items) + 1
    ensures i < |items| ==> ItemWeight(items[..i] + items[i + 1..]) == ItemWeight(items) - ItemLoad(items[i])
  {
    ItemWeightAppend(items, [t]);
    assert [t][1..] == [];
    if i < |items| {
      ItemWeightAppend(items[..i], items[i + 1..]);
      ItemWeightAppend(items[..i], [items[i]] + items[i + 1..]);
      ItemWeightAppend([items[i]], items[i + 1..]);
      assert items[..i] + ([items[i]] + items[i + 1..]) == items;
      assert ([items[i]] + items[i + 1..])[1..] == items[i + 1..];
    }
  }

  /** Items whose load is never negative weigh at least nothing. */
  lemma {:induction false} ItemWeightNonNegative(items: seq<Item>)
    requires forall k :: 0 <= k < |items| ==> ItemLoad(items[k]) >= 0
    ensures ItemWeight(items) >= 0
    decreases |items|
  {
    if items != [] {
      ItemWeightNonNegative(items[1..]);
    }
  }

  // ---------------------------------------------------------------------------
  // The component's props

  /** The props a `WeightSection` element is given, `charProp` being the one
      named `char`; a prop that is not passed is `None`. */
  datatype Props = Props(
    charProp: Option<Character>,
    abilities: Option<Abilities>,
    equipment: Option<Equipment>,
    items: Option<seq<Item>>,
    species: Option<Text>)

  /** The props both callers pass: `abilities`, `equipment`, `items` and
      `species`, and no `char`. */
  function CallerProps(abilities: Abilities, equipment: Equipment, items: seq<Item>, species: Text): Props {
    Props(None, Some(abilities), Some(equipment), Some(items), Some(species))
  }

  /** The three figures the section shows. */
  datatype Figures = Figures(weightLimit: int, totalWeight: int, isOver: bool)

  /** The figures for a species, abilities, equipment and items. */
  function FiguresOf(species: Text, abilities: Abilities, equipment: Equipment, items: seq<Item>): (r: Figures)
    ensures r.isOver <==> r.totalWeight > r.weightLimit
  {
    var limit := WeightLimit(species, abilities);
    var total := TotalWeight(equipment, items);
    Figures(limit, total, total > limit)
  }

  /** The component as written: it destructures `char` from its props and
      reads `char.species`; with no `char` prop that read throws (`None`). */
  function RenderAsWritten(p: Props): (r: Option<Figures>)
    ensures r.None? <==> p.charProp.None?
    ensures p.charProp.Some? ==> r.value.isOver == IsOverWeight(p.charProp.value)
  {
    match p.charProp
    case None => None
    case Some(c) => Some(FiguresOf(c.species, c.abilities, c.equipment, c.items))
  }

  /** The component as its callers use it: the figures from the four props
      they pass. */
  function RenderAsIntended(p: Props): (r: Option<Figures>)
    ensures r.Some? <==> p.abilities.Some? && p.equipment.Some? && p.items.Some? && p.species.Some?
  {
    if p.abilities.Some? && p.equipment.Some? && p.items.Some? && p.species.Some? then
      Some(FiguresOf(p.species.value, p.abilities.value, p.equipment.value, p.items.value))
    else None
  }

  /** As written, the section throws on every render from either caller. */
  lemma CallersGetNoFigures(abilities: Abilities, equipment: Equipment, items: seq<Item>, species: Text)
    ensures RenderAsWritten(CallerProps(abilities, equipment, items, species)).None?
  {
  }

  /** Read from the props the callers pass, the section shows what the
      written component would show for the character they come from: its
      weight limit, its carried weight and its overweight verdict. */
  lemma IntendedMatchesCharacter(c: Character)
    ensures var shown := RenderAsIntended(CallerProps(c.abilities, c.equipment, c.items, c.species));
            && shown.Some?
            && shown == RenderAsWritten(Props(Some(c), None, None, None, None))
            && shown.value.weightLimit == WeightLimit(c.species, c.abilities)
            && shown.value.totalWeight == TotalWeight(c.equipment, c.items)
            && (shown.value.isOver <==> IsOverWeight(c))
  {
  }
}
