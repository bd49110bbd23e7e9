/**
 * The edit form's own state: the record it starts from, whether it edits an
 * existing record, its own ability recomputation, and the guard that keeps a
 * second submit from starting while one is in flight.
 */
module EditForm {
  import opened Wrappers
  import opened Js
  import opened CharacterTypes
  import opened GameData
  import opened CharacterActions

  /** The suffix a cloned record's name gets. */
  const CopySuffix := " (コピー)"

  /** The starting record: a clone of the loaded record under a fresh id
      with no password, the loaded record itself, or the blank template
      under a fresh id when nothing was loaded. */
  function InitialState(initialData: Option<Character>, isClone: bool, freshId: string, template: Character): (r: Character)
    ensures initialData.Some? && isClone ==>
              r == initialData.value.(id := freshId, password := Str(""),
                                      characterName := Str(initialData.value.characterName.Interpolated() + CopySuffix))
    ensures initialData.Some? && !isClone ==> r == initialData.value
    ensures initialData.None? ==> r == template.(id := freshId)
  {
    match initialData
    case Some(d) =>
      if isClone then d.(id := freshId, password := Str(""), characterName := Str(d.characterName.Interpolated() + CopySuffix))
      else d
    case None => template.(id := freshId)
  }

  /** A clone keeps every field of the original except id, password and name,
      and its name ends with the copy suffix. */
  lemma CloneKeepsFields(d: Character, freshId: string, template: Character)
    ensures var r := InitialState(Some(d), true, freshId, template);
            && r.(id := d.id, password := d.password, characterName := d.characterName) == d
            && r.id == freshId && r.password == Str("")
            && r.characterName.Str? && |r.characterName.s| >= |CopySuffix|
            && r.characterName.s[|r.characterName.s| - |CopySuffix|..] == CopySuffix
  {
    var r := InitialState(Some(d), true, freshId, template);
    var n := d.characterName.Interpolated();
    assert r.characterName.s == n + CopySuffix;
    assert (n + CopySuffix)[|n|..] == CopySuffix;
  }

  /** The form is in edit mode exactly when a key was given and it is not a clone. */
  predicate IsEditMode(characterKey: Text, isClone: bool) {
    characterKey.Truthy() && !isClone
  }

  /** The `mode` handed to the sheet: `"edit"` in edit mode, else `"create"`. */
  function SheetMode(characterKey: Text, isClone: bool): (r: string)
    ensures r == "edit" || r == "create"
    ensures r == "edit" <==> characterKey.Truthy() && !isClone
  {
    if IsEditMode(characterKey, isClone) then "edit" else "create"
  }

  // ---------------------------------------------------------------------------
  // The form's own ability recomputation

  /** One score as the form rebuilds it: the bonus as stored (no default), the
      other modifier with a missing value made 0, and the total computed with
      JavaScript arithmetic, so a missing bonus makes it NaN. `base` and
      `adjusted` are dropped. */
  function FormScore(s: AbilityScore, sp: Species, st: Style, el: Element, a: Ability): (r: AbilityScore)
    ensures r.base == Missing && r.adjusted == Missing
    ensures r.bonus == s.bonus && r.otherModifier == Int(s.otherModifier.OrZero())
    ensures r.total.Int? <==> s.bonus.ToNumeric().Int?
    ensures r.total.Int? ==> r.total == Int(AbilityTotal(sp, st, el, a, s.bonus.ToNumeric().v, s.otherModifier.OrZero()))
  {
    var other := s.otherModifier.OrZero();
    var basicTotal := Add(Int(SpeciesBase(sp, a)), s.bonus);
    var total := Add(FloorThird(basicTotal), Int(StyleBonus(st, a) + ElementBonus(el, a) + other));
    AbilityScore(Missing, s.bonus, Int(other), total, Missing)
  }

  /** The record after the form's `updateAbilities` (given the merged record). */
  function FormRecomputed(next: Character): Option<Character> {
    if !Complete(next) then Some(next)
    else
      match (ParseSpecies(next.species.s), ParseStyle(next.style.s), ParseElement(next.element.s))
      case (Some(sp), Some(st), Some(el)) =>
        var abs := next.abilities;
        Some(next.(abilities := Abilities(
          FormScore(abs.physical, sp, st, el, Physical),
          FormScore(abs.intellect, sp, st, el, Intellect),
          FormScore(abs.mystic, sp, st, el, Mystic),
          FormScore(abs.agility, sp, st, el, Agility),
          FormScore(abs.passion, sp, st, el, Passion),
          FormScore(abs.affection, sp, st, el, Affection))))
      case _ => None
  }

  /** The form's `updateAbilities` loop over the six abilities. */
  method FormUpdateAbilities(next: Character) returns (r: Option<Character>)
    ensures r == FormRecomputed(next)
  {
    if !Complete(next) {
      return Some(next);
    }
    var species, style, element := ParseSpecies(next.species.s), ParseStyle(next.style.s), ParseElement(next.element.s);
    if species.None? || style.None? || element.None? {
      return None;
    }
    var sp, st, el := species.value, style.value, element.value;
    var newAbilities := next.abilities;
    for i := 0 to |AbilityKeys|
      invariant forall a ::
        newAbilities.Get(a) == if IndexOf(a) < i then FormScore(next.abilities.Get(a), sp, st, el, a) else next.abilities.Get(a)
    {
      var key := AbilityKeys[i];
      assert IndexOf(key) == i;
      newAbilities := newAbilities.Set(key, FormScore(next.abilities.Get(key), sp, st, el, key));
    }
    r := Some(next.(abilities := newAbilities));
    assert newAbilities == FormRecomputed(next).value.abilities by {
      var want := FormRecomputed(next).value.abilities;
      forall a ensures newAbilities.Get(a) == want.Get(a) {
        assert IndexOf(a) < |AbilityKeys|;
      }
      AbilitiesExtensional(newAbilities, want);
    }
  }

  /** The form and the shared updater agree on every total whose bonus is a
      number; where the bonus is missing the form's total is NaN while the
      shared updater counts the bonus as 0. */
  lemma FormAgreesWithActions(next: Character, a: Ability)
    requires FormRecomputed(next).Some? && Complete(next)
    ensures RecomputedAbilities(next).Some?
    ensures var b := next.abilities.Get(a).bonus;
            && (b.Int? ==> FormRecomputed(next).value.abilities.Get(a).total == RecomputedAbilities(next).value.abilities.Get(a).total)
            && (b.Missing? ==> FormRecomputed(next).value.abilities.Get(a).total.NaN?)
            && (b.Missing? ==> RecomputedAbilities(next).value.abilities.Get(a).total.Int?)
  {
    RecomputedAbilitiesCorrect(next);
  }

  // ---------------------------------------------------------------------------
  // Submit

  /** The form's submit state: whether a save is in flight, and the record it sent. */
  class SubmitGuard {
    var isSubmitting: bool
    var pending: Option<Character>

    ghost predicate Valid()
      reads this
    {
      isSubmitting <==> pending.Some?
    }

    constructor ()
      ensures Valid() && !isSubmitting
    {
      isSubmitting := false;
      pending := None;
    }

    /** The start of `handleSubmit`: nothing is sent while a save is in
        flight; otherwise the record is posted and the form is marked busy. */
    method Begin(c: Character) returns (sent: bool)
      requires Valid()
      modifies this
      ensures Valid()
      ensures sent <==> !old(isSubmitting)
      ensures old(isSubmitting) ==> isSubmitting == old(isSubmitting) && pending == old(pending)
      ensures !old(isSubmitting) ==> isSubmitting && pending == Some(c)
    {
      if isSubmitting {
        return false;
      }
      isSubmitting := true;
      pending := Some(c);
      sent := true;
    }

    /** The end of `handleSubmit` once the response is in: the form is free
        again, and a successful save moves to the edit page of the saved id. */
    method Finish(ok: bool) returns (navigate: Option<string>)
      requires Valid() && isSubmitting
      modifies this
      ensures Valid() && !isSubmitting
      ensures ok ==> navigate == Some("/preciousdays/edit?key=" + old(pending).value.id)
      ensures !ok ==> navigate.None?
    {
      var c := pending.value;
      isSubmitting := false;
      pending := None;
      if ok {
        navigate := Some("/preciousdays/edit?key=" + c.id);
      } else {
        navigate := None;
      }
    }
  }
}
