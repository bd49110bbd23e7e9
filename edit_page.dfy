/**
 * The edit page on the server: which record it loads (`key`, else `clone`),
 * the not-found view, the password guard that needs the edit cookie, and the
 * page title.
 */
module EditPage {
  import opened Wrappers
  import opened Js
  import opened CharacterTypes
  import opened Cipher
  import opened Storage
  import EditForm

  /** The request's cookies, by name. */
  type Cookies = map<string, string>

  /** The name of the cookie that allows editing record `id`. */
  function EditCookie(id: string): string {
    "edit_allowed_" + id
  }

  /** `key || clone` */
  function TargetId(key: Text, clone: Text): (r: Text)
    ensures key.Truthy() ==> r == key
    ensures !key.Truthy() ==> r == clone
    ensures r.Truthy() <==> key.Truthy() || clone.Truthy()
  {
    if key.Truthy() then key else clone
  }

  /** The cookie allowing edits of `id` is present with the value `"true"`. */
  predicate EditAllowed(cookies: Cookies, id: string) {
    EditCookie(id) in cookies && cookies[EditCookie(id)] == "true"
  }

  datatype Page =
    | NotFound
    | Redirect(location: string)
    | Form(initialData: Option<Character>, characterKey: Text, isClone: bool)

  const ListPath := "/preciousdays"

  /** `EditPage`: what the server renders for `?key=…&clone=…`. */
  function Render(objects: Objects, k: Key, key: Text, clone: Text, cookies: Cookies): (r: Page)
    ensures !TargetId(key, clone).Truthy() ==> r == Form(None, key, clone.Truthy())
    ensures TargetId(key, clone).Truthy() ==>
              (r.NotFound? <==> GetCharacterById(objects, k, TargetId(key, clone).s).None?)
    ensures r.Redirect? ==> r.location == ListPath
    ensures r.Form? ==> r.characterKey == key && r.isClone == clone.Truthy()
    ensures r.Form? && TargetId(key, clone).Truthy() ==>
              r.initialData == GetCharacterById(objects, k, TargetId(key, clone).s) && r.initialData.Some?
  {
    var target := TargetId(key, clone);
    if !target.Truthy() then Form(None, key, clone.Truthy())
    else
      match GetCharacterById(objects, k, target.s)
      case None => NotFound
      case Some(c) =>
        if key.Truthy() && c.password.Truthy() && !EditAllowed(cookies, key.s) then Redirect(ListPath)
        else Form(Some(c), key, clone.Truthy())
  }

  /** `EditPage` step by step: `initialData` starts as `null`, is loaded
      when there is a target, and the guard runs only for a `key`. */
  method Serve(objects: Objects, k: Key, key: Text, clone: Text, cookies: Cookies) returns (r: Page)
    ensures r == Render(objects, k, key, clone, cookies)
  {
    var targetId := if key.Truthy() then key else clone;
    var initialData: Option<Character> := None;
    if targetId.Truthy() {
      initialData := GetCharacterById(objects, k, targetId.s);
      if initialData.None? {
        return NotFound;
      }
      if key.Truthy() {
        if initialData.value.password.Truthy() {
          var allowedCookie := EditCookie(key.s);
          if allowedCookie !in cookies || cookies[allowedCookie] != "true" {
            return Redirect(ListPath);
          }
        }
      }
    }
    r := Form(initialData, key, clone.Truthy());
  }

  /** The guard: a redirect happens exactly when a `key` names a loadable
      record with a non-empty password and the edit cookie for that key is
      not `"true"`; a form for a password-protected `key` is only rendered
      with that cookie. */
  lemma RenderGuard(objects: Objects, k: Key, key: Text, clone: Text, cookies: Cookies)
    ensures var r := Render(objects, k, key, clone, cookies);
            var target := TargetId(key, clone);
            var loaded := if target.Truthy() then GetCharacterById(objects, k, target.s) else None;
            && (r.Redirect? <==>
                key.Truthy() && loaded.Some? && loaded.value.password.Truthy() && !EditAllowed(cookies, key.s))
            && (r.Form? && key.Truthy() && r.initialData.value.password.Truthy() ==> EditAllowed(cookies, key.s))
  {
  }

  /** A request with only `clone` is never redirected, whatever the cookies
      and the stored password, and the form it gets is a clone. */
  lemma CloneNeverGuarded(objects: Objects, k: Key, clone: Text, cookies: Cookies)
    requires clone.Truthy()
    ensures var r := Render(objects, k, Absent, clone, cookies);
            && !r.Redirect?
            && (r.Form? ==> r.isClone && r.initialData == GetCharacterById(objects, k, clone.s))
  {
  }

  /** The form the page renders is in edit mode exactly for a `key` without
      `clone`; it then edits the record stored under that key as loaded,
      behind the guard when it has a password. A request with `clone` never
      gets an edit-mode form. */
  lemma EditModeForKeyOnly(objects: Objects, k: Key, key: Text, clone: Text, cookies: Cookies,
                           freshId: string, template: Character)
    ensures var r := Render(objects, k, key, clone, cookies);
            && (r.Form? ==> (EditForm.IsEditMode(r.characterKey, r.isClone) <==> key.Truthy() && !clone.Truthy()))
            && (r.Form? ==> EditForm.SheetMode(r.characterKey, r.isClone)
                              == if key.Truthy() && !clone.Truthy() then "edit" else "create")
            && (r.Form? && EditForm.IsEditMode(r.characterKey, r.isClone) ==>
                  && r.initialData == GetCharacterById(objects, k, key.s)
                  && r.initialData.Some?
                  && EditForm.InitialState(r.initialData, r.isClone, freshId, template) == r.initialData.value
                  && (r.initialData.value.password.Truthy() ==> EditAllowed(cookies, key.s)))
            && (clone.Truthy() ==> !(r.Form? && EditForm.IsEditMode(r.characterKey, r.isClone)))
  {
  }

  // ---------------------------------------------------------------------------
  // Metadata

  datatype Metadata = Metadata(title: string, description: Option<string>, noIndex: bool)

  const SiteSuffix := " | Hotch Potch."
  const SystemName := "プレシャスデイズ"

  /** `generateMetadata`: the default title when there is no target, a
      not-found title when it cannot be loaded, else the character's name
      (the system name when the name is empty) with the site suffix. */
  function PageMetadata(objects: Objects, k: Key, key: Text, clone: Text): (r: Metadata)
    ensures !TargetId(key, clone).Truthy() ==> r.title == SystemName + SiteSuffix && !r.noIndex
    ensures TargetId(key, clone).Truthy() && GetCharacterById(objects, k, TargetId(key, clone).s).None? ==>
              r == Metadata("キャラクターが見つかりませんでした" + SiteSuffix, None, false)
    ensures TargetId(key, clone).Truthy() && GetCharacterById(objects, k, TargetId(key, clone).s).Some? ==>
              var name := GetCharacterById(objects, k, TargetId(key, clone).s).value.characterName;
              && r.title == (if name.Truthy() then name.s else SystemName) + SiteSuffix
              && r.noIndex
  {
    var target := TargetId(key, clone);
    if !target.Truthy() then
      Metadata(SystemName + SiteSuffix, Some("プレシャスデイズのキャラクターシート作成ページです。"), false)
    else
      match GetCharacterById(objects, k, target.s)
      case None => Metadata("キャラクターが見つかりませんでした" + SiteSuffix, None, false)
      case Some(c) =>
        var displayTitle := c.characterName.OrElse(SystemName);
        Metadata(displayTitle + SiteSuffix, Some(displayTitle + " のキャラクターシート閲覧ページです。"), true)
  }

  /** The title and the page agree: a not-found title goes with the
      not-found view, and any other title with a record that was loaded. */
  lemma MetadataMatchesPage(objects: Objects, k: Key, key: Text, clone: Text, cookies: Cookies)
    requires TargetId(key, clone).Truthy()
    ensures Render(objects, k, key, clone, cookies).NotFound? <==> PageMetadata(objects, k, key, clone).description.None?
  {
  }
}
