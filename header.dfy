/**
 * The page header: the main title is the game system named by the first
 * path segment, the subtitle says which screen is showing, and the edit
 * screens get the silver theme.
 */
module Header {
  import opened Wrappers
  import opened Strings

  datatype SystemEntry = SystemEntry(key: string, title: string)

  /** `SYSTEM_DATA`: the game systems the site serves. */
  const SystemData: seq<SystemEntry> := [SystemEntry("preciousdays", "プレシャスデイズ")]

  const DefaultTitle := "プレシャスデイズ"

  const ListTitle := "キャラクター一覧"
  const EditTitle := "キャラクター編集画面"
  const CreateTitle := "キャラクター新規作成画面"
  const ViewTitle := "キャラクター閲覧画面"

  /** `s.includes(t)` */
  predicate Includes(s: string, t: string)
    decreases |s|
  {
    StartsWith(s, t) || (|s| > 0 && Includes(s[1..], t))
  }

  /** `segments[1]`: the first segment after the leading slash, `undefined`
      for a path without a slash. */
  function SystemKey(pathname: string): (r: Option<string>)
    ensures r.Some? <==> '/' in pathname
  {
    var segments := Split(pathname, '/');
    SplitHasSeparator(pathname, '/');
    if |segments| > 1 then Some(segments[1]) else None
  }

  /** `SYSTEM_DATA.find((s) => s.k === key)` over `systems`. */
  function Find(systems: seq<SystemEntry>, key: Option<string>): (r: Option<SystemEntry>)
    ensures r.Some? ==> r.value in systems && Some(r.value.key) == key
    ensures r.None? ==> forall i :: 0 <= i < |systems| ==> Some(systems[i].key) != key
  {
    if systems == [] then None
    else if Some(systems[0].key) == key then Some(systems[0])
    else Find(systems[1..], key)
  }

  /** The found system's title, else the default. */
  function MainTitle(pathname: string): (r: string)
    ensures SystemKey(pathname) == Some("preciousdays") ==> r == SystemData[0].title
  {
    var found := Find(SystemData, SystemKey(pathname));
    if found.Some? then found.value.title else DefaultTitle
  }

  /** The subtitle: a path ending in `/edit` is the edit screen when the
      query has a `key` and the create screen otherwise; failing that, a path
      containing `/view` is the view screen; any other is the list. */
  function SubTitle(pathname: string, hasKey: bool): (r: string)
    ensures r == EditTitle <==> EndsWith(pathname, "/edit") && hasKey
    ensures r == CreateTitle <==> EndsWith(pathname, "/edit") && !hasKey
    ensures r == ViewTitle <==> !EndsWith(pathname, "/edit") && Includes(pathname, "/view")
    ensures r == ListTitle <==> !EndsWith(pathname, "/edit") && !Includes(pathname, "/view")
  {
    if EndsWith(pathname, "/edit") then (if hasKey then EditTitle else CreateTitle)
    else if Includes(pathname, "/view") then ViewTitle
    else ListTitle
  }

  /** The component's title computation: `subTitle` starts as the list
      title and is overwritten by the first matching branch. */
  method Titles(pathname: string, hasKey: bool) returns (mainTitle: string, subTitle: string)
    ensures mainTitle == MainTitle(pathname) && subTitle == SubTitle(pathname, hasKey)
  {
    var currentSystem := Find(SystemData, SystemKey(pathname));
    mainTitle := if currentSystem.Some? then currentSystem.value.title else DefaultTitle;
    subTitle := ListTitle;
    if EndsWith(pathname, "/edit") {
      if hasKey {
        subTitle := EditTitle;
      } else {
        subTitle := CreateTitle;
      }
    } else if Includes(pathname, "/view") {
      subTitle := ViewTitle;
    }
  }

  /** The `theme-silver` class. */
  predicate SilverTheme(pathname: string) {
    EndsWith(pathname, "/edit")
  }

  /** With a single system whose title is the default, every path shows the
      same main title. */
  lemma MainTitleConstant(pathname: string)
    ensures MainTitle(pathname) == DefaultTitle
  {
  }

  /** The silver theme marks exactly the two form screens. */
  lemma SilverMarksForms(pathname: string, hasKey: bool)
    ensures SilverTheme(pathname) <==> SubTitle(pathname, hasKey) in {EditTitle, CreateTitle}
  {
  }

  /** `/edit` wins over `/view`: a path that contains `/view` but ends in
      `/edit` is still a form screen. */
  lemma EditBeforeView()
    ensures SubTitle("/preciousdays/view/edit", true) == EditTitle
    ensures SubTitle("/preciousdays/view", true) == ViewTitle
    ensures SubTitle("/preciousdays", true) == ListTitle
  {
    var both, view, list := "/preciousdays/view/edit", "/preciousdays/view", "/preciousdays";
    assert both[|both| - 5..] == "/edit";
    assert view[13..][..5] == "/view";
    IncludesAt(view, "/view", 13);
    assert !EndsWith(list, "/edit") by {
      assert list[|list| - 5..][0] == 's';
    }
    NotIncludesShort(list, "/view");
  }

  /** `t` found at position `i` of `s` is included in `s`. */
  lemma {:induction false} IncludesAt(s: string, t: string, i: nat)
    requires i + |t| <= |s| && s[i..][..|t|] == t
    ensures Includes(s, t)
    decreases i
  {
    if i > 0 {
      assert s[1..][i - 1..] == s[i..];
      IncludesAt(s[1..], t, i - 1);
    }
  }

  /** `s` cannot include `t` when `t`'s second character never occurs in `s`. */
  lemma {:induction false} NotIncludesShort(s: string, t: string)
    requires |t| >= 2 && t[1] !in s
    ensures !Includes(s, t)
    decreases |s|
  {
    if |s| > 0 {
      assert forall c :: c in s[1..] ==> c in s;
      NotIncludesShort(s[1..], t);
      if |t| <= |s| {
        assert s[..|t|][1] == s[1];
      }
    }
  }

  /** A piece of a split exists past the first exactly when the separator
      occurs. */
  lemma {:induction false} SplitHasSeparator(s: string, sep: char)
    ensures |Split(s, sep)| > 1 <==> sep in s
    decreases |s|
  {
    if |s| > 0 {
      SplitHasSeparator(s[1..], sep);
      assert s == [s[0]] + s[1..];
    }
  }
}
