/**
 * The HP, MP, WP and GL cards: each total is a base plus the stored
 * modifier, and the GL card's colour deepens with the level.
 */
module ResourceSection {
  import opened Wrappers
  import opened Js
  import opened CharacterTypes
  import opened GameData
  import opened CharacterIndex
  import opened CharacterActions

  /** `char.style ? STYLE_DATA[char.style]?.hp.base || 0 : 0` */
  function HpBaseShown(c: Character): (r: int)
    ensures !c.style.Truthy() || ParseStyle(c.style.s).None? ==> r == 0
    ensures c.style.Truthy() && ParseStyle(c.style.s).Some? ==> r == HpBase(ParseStyle(c.style.s).value)
  {
    if c.style.Truthy() then HpBaseOrZero(c.style.s) else 0
  }

  function MpBaseShown(c: Character): (r: int)
    ensures !c.style.Truthy() || ParseStyle(c.style.s).None? ==> r == 0
    ensures c.style.Truthy() && ParseStyle(c.style.s).Some? ==> r == MpBase(ParseStyle(c.style.s).value)
  {
    if c.style.Truthy() then MpBaseOrZero(c.style.s) else 0
  }

  /** `(passion.total || 0) + (affection.total || 0)` */
  function WpBase(c: Character): int {
    c.abilities.passion.total.OrZero() + c.abilities.affection.total.OrZero()
  }

  function Total(c: Character, res: Resource): int {
    match res
    case Hp => HpBaseShown(c) + c.hp.OrZero()
    case Mp => MpBaseShown(c) + c.mp.OrZero()
    case Wp => WpBase(c) + c.wp.OrZero()
  }

  /** The totals on the cards are those the index entry records. */
  lemma TotalsMatchIndex(c: Character, now: string)
    ensures Total(c, Hp) == CreateSummary(c, now).hp
    ensures Total(c, Mp) == CreateSummary(c, now).mp
    ensures Total(c, Wp) == CreateSummary(c, now).wp
  {
    assert ParseStyle("").None?;
  }

  /** Setting a modifier moves only that card: its total becomes base plus the
      new modifier. */
  lemma ResourceUpdateMovesOneCard(c: Character, res: Resource, v: int)
    ensures Total(ResourceUpdated(c, res, Int(v)), res) == Total(c, res) - c.Modifier(res).OrZero() + v
    ensures forall q :: q != res ==> Total(ResourceUpdated(c, res, Int(v)), q) == Total(c, q)
  {
  }

  /** The GL level shown: `char.gl || 0`. */
  function GlLevel(c: Character): int {
    c.gl.OrZero()
  }

  datatype CardStyle =
    | Plain
    | GlStyle(mixPercentage: int, transparency: int, solidBorder: bool, whiteText: bool, glow: bool)

  /** `getGLDynamicStyle`: other cards get no style; the GL card mixes
      `10 + 13 × level` percent of the accent colour, with a solid border and
      white text from level 4 and a glow from level 6. */
  function GlDynamicStyle(title: string, level: int): (r: CardStyle)
    ensures title != "GL" <==> r.Plain?
    ensures r.GlStyle? ==> r.mixPercentage == 10 + level * 13 && r.transparency == 100 - r.mixPercentage
    ensures r.GlStyle? ==> (r.solidBorder <==> level >= 4) && (r.whiteText <==> level >= 4) && (r.glow <==> level >= 6)
  {
    if title != "GL" then Plain
    else
      var mix := 10 + level * 13;
      GlStyle(mix, 100 - mix, level >= 4, level >= 4, level >= 6)
  }

  /** After the GL input is clamped the card's colour mix stays within 10% to
      88%, and the glow comes only at the top level. */
  lemma GlStyleAfterUpdate(c: Character, val: Num)
    requires val.NaN? || val.Int?
    ensures var level := GlLevel(GlUpdated(c, val));
            var st := GlDynamicStyle("GL", level);
            && 0 <= level <= 6
            && 10 <= st.mixPercentage <= 88
            && (st.glow <==> level == 6)
            && (st.glow ==> st.solidBorder)
  {
  }
}
