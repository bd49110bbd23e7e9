/**
 * The rule tables of the Precious Days system: species base values, style
 * bonuses and resource bases, element bonuses, the magic type of each style,
 * and the initial-ability builder.
 */
module GameData {
  import opened Wrappers
  import opened Js
  import opened CharacterTypes

  /** The properties every object literal inherits from `Object.prototype`.
      Indexing one of the rule tables with such a name finds that member,
      not `undefined`. */
  predicate InheritedName(k: string) {
    k in {"constructor", "__proto__", "toString", "toLocaleString", "valueOf",
          "hasOwnProperty", "isPrototypeOf", "propertyIsEnumerable",
          "__defineGetter__", "__defineSetter__", "__lookupGetter__", "__lookupSetter__"}
  }

  /** No table key is an inherited name. */
  lemma TableKeysOwn(s: Species, t: Style, e: Element)
    ensures !InheritedName(SpeciesName(s)) && !InheritedName(StyleName(t)) && !InheritedName(ElementName(e))
  {
  }

  // ---------------------------------------------------------------------------
  // Abilities

  const AbilityKeys: seq<Ability> := [Physical, Intellect, Mystic, Agility, Passion, Affection]

  /** The key of an ability in the record. */
  function AbilityName(a: Ability): string {
    match a
    case Physical => "physical"
    case Intellect => "intellect"
    case Mystic => "mystic"
    case Agility => "agility"
    case Passion => "passion"
    case Affection => "affection"
  }

  /** The display name from `ABILITY_DATA`. */
  function AbilityLabel(a: Ability): string {
    match a
    case Physical => "体力"
    case Intellect => "知力"
    case Mystic => "神秘"
    case Agility => "俊敏"
    case Passion => "情熱"
    case Affection => "優愛"
  }

  /** `ABILITY_KEYS` lists each of the six abilities exactly once. */
  lemma AbilityKeysExact()
    ensures |AbilityKeys| == 6
    ensures forall i, j :: 0 <= i < j < |AbilityKeys| ==> AbilityKeys[i] != AbilityKeys[j]
    ensures forall a: Ability :: a in AbilityKeys
    ensures forall i, j :: 0 <= i < j < |AbilityKeys| ==> AbilityName(AbilityKeys[i]) != AbilityName(AbilityKeys[j])
  {
    forall a: Ability ensures a in AbilityKeys {
      assert AbilityKeys[IndexOf(a)] == a;
    }
  }

  // ---------------------------------------------------------------------------
  // Species

  datatype Species = Human | Elf | Angel | Therian

  function SpeciesName(s: Species): string {
    match s
    case Human => "human"
    case Elf => "elf"
    case Angel => "angel"
    case Therian => "therian"
  }

  /** `SPECIES_DATA[key]`: the entry for a key, or nothing for any other string. */
  function ParseSpecies(key: string): (r: Option<Species>)
    ensures r.Some? ==> SpeciesName(r.value) == key
  {
    if key == "human" then Some(Human)
    else if key == "elf" then Some(Elf)
    else if key == "angel" then Some(Angel)
    else if key == "therian" then Some(Therian)
    else None
  }

  lemma ParseSpeciesName(s: Species)
    ensures ParseSpecies(SpeciesName(s)) == Some(s)
  {
  }

  /** The species' base value for an ability. */
  function SpeciesBase(s: Species, a: Ability): int {
    match s
    case Human =>
      (match a
       case Physical => 8 case Intellect => 7 case Mystic => 7
       case Agility => 8 case Passion => 10 case Affection => 10)
    case Elf =>
      (match a
       case Physical => 7 case Intellect => 12 case Mystic => 7
       case Agility => 8 case Passion => 8 case Affection => 8)
    case Angel =>
      (match a
       case Physical => 8 case Intellect => 10 case Mystic => 10
       case Agility => 8 case Passion => 7 case Affection => 7)
    case Therian =>
      (match a
       case Physical => 10 case Intellect => 5 case Mystic => 5
       case Agility => 12 case Passion => 9 case Affection => 9)
  }

  /** Every species' base value lies in [5, 12]. */
  lemma SpeciesBaseRange(s: Species, a: Ability)
    ensures 5 <= SpeciesBase(s, a) <= 12
  {
  }

  /** `SPECIES_DATA[key]?.abilities[a] || 0` for an arbitrary string key. */
  function SpeciesBaseOrZero(key: string, a: Ability): (r: int)
    ensures ParseSpecies(key).None? ==> r == 0
    ensures ParseSpecies(key).Some? ==> r == SpeciesBase(ParseSpecies(key).value, a)
  {
    match ParseSpecies(key)
    case None => 0
    case Some(s) => SpeciesBase(s, a)
  }

  // ---------------------------------------------------------------------------
  // Styles

  datatype Style = Enchanter | Caster | Shooter | Shapeshifter | Sacrifa | MysticStyle

  function StyleName(s: Style): string {
    match s
    case Enchanter => "enchanter"
    case Caster => "caster"
    case Shooter => "shooter"
    case Shapeshifter => "shapeshifter"
    case Sacrifa => "sacrifa"
    case MysticStyle => "mystic"
  }

  /** `STYLE_DATA[key]` */
  function ParseStyle(key: string): (r: Option<Style>)
    ensures r.Some? ==> StyleName(r.value) == key
  {
    if key == "enchanter" then Some(Enchanter)
    else if key == "caster" then Some(Caster)
    else if key == "shooter" then Some(Shooter)
    else if key == "shapeshifter" then Some(Shapeshifter)
    else if key == "sacrifa" then Some(Sacrifa)
    else if key == "mystic" then Some(MysticStyle)
    else None
  }

  lemma ParseStyleName(s: Style)
    ensures ParseStyle(StyleName(s)) == Some(s)
  {
  }

  /** The `bonuses` object of a style: the abilities it lists, each with its value. */
  function StyleBonuses(s: Style): map<Ability, int> {
    match s
    case Enchanter => map[Physical := 1, Agility := 1, Affection := 1]
    case Caster => map[Intellect := 1, Passion := 1, Affection := 1]
    case Shooter => map[Intellect := 1, Agility := 1, Affection := 1]
    case Shapeshifter => map[Physical := 1, Mystic := 1, Agility := 1]
    case Sacrifa => map[Intellect := 1, Mystic := 1, Passion := 1]
    case MysticStyle => map[Physical := 1, Mystic := 1, Passion := 1]
  }

  /** `bonuses[a] || 0` */
  function StyleBonus(s: Style, a: Ability): (r: int)
    ensures r == 0 || r == 1
    ensures r == 1 <==> a in StyleBonuses(s)
  {
    if a in StyleBonuses(s) then StyleBonuses(s)[a] else 0
  }

  /** Every style grants +1 to exactly three abilities. */
  lemma StyleBonusesThree(s: Style)
    ensures |StyleBonuses(s).Keys| == 3
    ensures forall a :: a in StyleBonuses(s) ==> StyleBonuses(s)[a] == 1
  {
    match s
    case Enchanter =>
      assert StyleBonuses(s).Keys == {Physical, Agility, Affection};
    case Caster =>
      assert StyleBonuses(s).Keys == {Intellect, Passion, Affection};
    case Shooter =>
      assert StyleBonuses(s).Keys == {Intellect, Agility, Affection};
    case Shapeshifter =>
      assert StyleBonuses(s).Keys == {Physical, Mystic, Agility};
    case Sacrifa =>
      assert StyleBonuses(s).Keys == {Intellect, Mystic, Passion};
    case MysticStyle =>
      assert StyleBonuses(s).Keys == {Physical, Mystic, Passion};
  }

  function HpBase(s: Style): int {
    match s
    case Enchanter => 30 case Caster => 28 case Shooter => 30
    case Shapeshifter => 30 case Sacrifa => 28 case MysticStyle => 29
  }

  function HpGrowth(s: Style): int {
    match s
    case Enchanter => 7 case Caster => 5 case Shooter => 7
    case Shapeshifter => 7 case Sacrifa => 5 case MysticStyle => 4
  }

  function MpBase(s: Style): int {
    match s
    case Enchanter => 15 case Caster => 17 case Shooter => 15
    case Shapeshifter => 15 case Sacrifa => 17 case MysticStyle => 16
  }

  function MpGrowth(s: Style): int {
    match s
    case Enchanter => 4 case Caster => 6 case Shooter => 4
    case Shapeshifter => 4 case Sacrifa => 6 case MysticStyle => 7
  }

  /** Every style starts at HP + MP = 45 and gains 11 per level in total. */
  lemma ResourceBudget(s: Style)
    ensures HpBase(s) + MpBase(s) == 45
    ensures HpGrowth(s) + MpGrowth(s) == 11
  {
  }

  /** `STYLE_DATA[key]?.hp.base || 0` */
  function HpBaseOrZero(key: string): (r: int)
    ensures ParseStyle(key).None? ==> r == 0
    ensures ParseStyle(key).Some? ==> r == HpBase(ParseStyle(key).value)
  {
    match ParseStyle(key)
    case None => 0
    case Some(s) => HpBase(s)
  }

  /** `STYLE_DATA[key]?.mp.base || 0` */
  function MpBaseOrZero(key: string): (r: int)
    ensures ParseStyle(key).None? ==> r == 0
    ensures ParseStyle(key).Some? ==> r == MpBase(ParseStyle(key).value)
  {
    match ParseStyle(key)
    case None => 0
    case Some(s) => MpBase(s)
  }

  // ---------------------------------------------------------------------------
  // Elements

  datatype Element = Earth | Water | Fire | Wind | Light | Dark

  function ElementName(e: Element): string {
    match e
    case Earth => "earth" case Water => "water" case Fire => "fire"
    case Wind => "wind" case Light => "light" case Dark => "dark"
  }

  /** `ELEMENT_DATA[key]` */
  function ParseElement(key: string): (r: Option<Element>)
    ensures r.Some? ==> ElementName(r.value) == key
  {
    if key == "earth" then Some(Earth)
    else if key == "water" then Some(Water)
    else if key == "fire" then Some(Fire)
    else if key == "wind" then Some(Wind)
    else if key == "light" then Some(Light)
    else if key == "dark" then Some(Dark)
    else None
  }

  /** The one ability an element raises. */
  function ElementAbility(e: Element): Ability {
    match e
    case Earth => Physical case Water => Mystic case Fire => Intellect
    case Wind => Agility case Light => Affection case Dark => Passion
  }

  function ElementBonuses(e: Element): map<Ability, int> {
    map[ElementAbility(e) := 1]
  }

  function ElementBonus(e: Element, a: Ability): (r: int)
    ensures r == (if a == ElementAbility(e) then 1 else 0)
  {
    if a in ElementBonuses(e) then ElementBonuses(e)[a] else 0
  }

  /** Every element grants +1 to exactly one ability, and no two elements
      raise the same ability. */
  lemma ElementBonusOne(e: Element, f: Element)
    ensures ElementBonuses(e).Keys == {ElementAbility(e)} && ElementBonuses(e)[ElementAbility(e)] == 1
    ensures e != f ==> ElementAbility(e) != ElementAbility(f)
  {
  }

  // ---------------------------------------------------------------------------
  // Magic types

  datatype MagicType = Enchantment | Chant | Divine {
    /** The label used in `STYLE_MAGIC_TYPE`. */
    function Label(): string {
      match this
      case Enchantment => "付与術式"
      case Chant => "詠唱術式"
      case Divine => "神性術式"
    }
  }

  function StyleMagic(s: Style): MagicType {
    match s
    case Enchanter => Enchantment case Shapeshifter => Enchantment
    case Caster => Chant case Shooter => Chant
    case Sacrifa => Divine case MysticStyle => Divine
  }

  /** `STYLE_MAGIC_TYPE[key]`: defined for the six style keys only. */
  function StyleMagicType(key: string): (r: Option<MagicType>)
    ensures r.Some? <==> ParseStyle(key).Some?
  {
    match ParseStyle(key)
    case None => None
    case Some(s) => Some(StyleMagic(s))
  }

  /** The table maps all six styles, two to each magic type. */
  lemma StyleMagicTwoEach(s: Style)
    ensures StyleMagicType(StyleName(s)) == Some(StyleMagic(s))
    ensures StyleMagic(s) == Enchantment <==> s == Enchanter || s == Shapeshifter
    ensures StyleMagic(s) == Chant <==> s == Caster || s == Shooter
    ensures StyleMagic(s) == Divine <==> s == Sacrifa || s == MysticStyle
  {
  }

  // ---------------------------------------------------------------------------
  // Initial abilities

  /** `getInitialAbilities`: for every ability, `base` from the species,
      `bonus` from the style (0 when it lists none), `total = base + bonus`
      and `adjusted = floor(total / 3)`; `otherModifier` is not set. */
  method InitialAbilities(sp: Species, st: Style) returns (r: Abilities)
    ensures forall a :: r.Get(a).base == Int(SpeciesBase(sp, a))
    ensures forall a :: r.Get(a).bonus == Int(StyleBonus(st, a))
    ensures forall a :: r.Get(a).total == Int(SpeciesBase(sp, a) + StyleBonus(st, a))
    ensures forall a :: r.Get(a).adjusted == FloorThird(r.Get(a).total)
    ensures forall a :: r.Get(a).otherModifier == Missing
  {
    r := NoAbilities;
    for i := 0 to |AbilityKeys|
      invariant forall a :: r.Get(a) == (if IndexOf(a) < i then InitialScore(sp, st, a) else EmptyScore)
    {
      var key := AbilityKeys[i];
      assert IndexOf(key) == i;
      r := r.Set(key, InitialScore(sp, st, key));
    }
    InitialScores(r, sp, st);
  }

  /** What the scores `InitialScore` builds hold. */
  lemma InitialScores(r: Abilities, sp: Species, st: Style)
    requires forall a :: r.Get(a) == InitialScore(sp, st, a)
    ensures forall a :: r.Get(a).base == Int(SpeciesBase(sp, a))
    ensures forall a :: r.Get(a).bonus == Int(StyleBonus(st, a))
    ensures forall a :: r.Get(a).total == Int(SpeciesBase(sp, a) + StyleBonus(st, a))
    ensures forall a :: r.Get(a).adjusted == FloorThird(r.Get(a).total)
    ensures forall a :: r.Get(a).otherModifier == Missing
  {
    forall a
      ensures r.Get(a).adjusted == FloorThird(r.Get(a).total)
    {
      assert r.Get(a) == InitialScore(sp, st, a);
    }
  }

  /** The score `getInitialAbilities` builds for one key. */
  function InitialScore(sp: Species, st: Style, a: Ability): AbilityScore {
    var total := SpeciesBase(sp, a) + StyleBonus(st, a);
    AbilityScore(Int(SpeciesBase(sp, a)), Int(StyleBonus(st, a)), Missing, Int(total), Int(total / 3))
  }

  /** The position of an ability in `AbilityKeys`. */
  function IndexOf(a: Ability): (i: nat)
    ensures i < |AbilityKeys| && AbilityKeys[i] == a
    ensures forall j :: 0 <= j < |AbilityKeys| && AbilityKeys[j] == a ==> j == i
  {
    match a
    case Physical => 0 case Intellect => 1 case Mystic => 2
    case Agility => 3 case Passion => 4 case Affection => 5
  }
}
