/**
 * The password check behind the edit link: the record is fetched from the
 * bucket under `<id>.bin`, decrypted and parsed, and a matching (or absent)
 * stored password earns a one-day cookie that the edit page accepts.
 */
module VerifyPassword {
  import opened Wrappers
  import opened Js
  import opened Bytes
  import opened Tree
  import opened Records
  import opened CharacterTypes
  import opened Cipher
  import opened Storage
  import opened EditPage

  /** The request body: `Unreadable` when `req.json()` throws or the body is
      `null`, so that destructuring it throws. */
  datatype Request = Unreadable | Request(id: Text, password: Text)

  /** What the bucket's get returns: a thrown error (such as a missing key),
      a response without a body, or the stored bytes. */
  datatype Fetched = GetFailed | NoBody | Got(data: bytes)

  /** The get against a bucket holding `objects`. */
  function Fetch(objects: Objects, k: string): (r: Fetched)
    ensures r.GetFailed? <==> k !in objects
    ensures k in objects ==> r == Got(objects[k])
  {
    if k in objects then Got(objects[k]) else GetFailed
  }

  datatype CookieGrant = CookieGrant(name: string, value: string, httpOnly: bool, secure: bool,
                                     path: string, maxAge: int, sameSite: string)

  datatype Response = Response(status: int, success: bool, message: Option<string>, cookie: Option<CookieGrant>)

  function Failure(status: int, message: string): Response {
    Response(status, false, Some(message), None)
  }

  const OneDay := 60 * 60 * 24

  /** The cookie granted for `id`; `secure` only in production. */
  function Grant(id: string, production: bool): CookieGrant {
    CookieGrant(EditCookie(id), "true", true, production, "/", OneDay, "lax")
  }

  /** JavaScript truthiness of a parsed member (`undefined` when absent). */
  predicate JsonTruthy(o: Option<Json>) {
    match o
    case None => false
    case Some(JNull) => false
    case Some(JBool(b)) => b
    case Some(JNum(n)) => n != 0
    case Some(JStr(s)) => s != ""
    case Some(_) => true
  }

  /** `storedPassword === password` for a submitted string or `undefined`. */
  predicate StrictEquals(stored: Option<Json>, submitted: Text) {
    match submitted
    case Absent => stored.None?
    case Str(s) => stored == Some(JStr(s))
  }

  /** `charData.password` of the parsed plaintext; `None` inside `Some` is an
      `undefined` member, the outer `None` the TypeError of reading a
      property of `null`. */
  function StoredPassword(j: Json): (r: Option<Option<Json>>)
    ensures r.None? <==> j.JNull?
    ensures j.JObj? ==> r == Some(Member(j, "password"))
  {
    if j.JNull? then None else Some(Member(j, "password"))
  }

  /** The comparison once the stored password member is in hand: a falsy
      one, or one strictly equal to the submitted one, is granted. */
  function Decide(stored: Option<Json>, id: string, password: Text, production: bool): Response {
    if !JsonTruthy(stored) || StrictEquals(stored, password) then Response(200, true, None, Some(Grant(id, production)))
    else Failure(401, "パスワードが違います")
  }

  /** The decision once the record's bytes are in hand: a grant, a refusal,
      or a failure to read the record. */
  function Authorize(key: Key, id: string, password: Text, data: bytes, production: bool): (r: Response)
    ensures r.status in {200, 401, 500}
    ensures r.success <==> r.status == 200
    ensures r.cookie.Some? <==> r.status == 200
    ensures r.status == 200 ==> r.cookie == Some(Grant(id, production))
  {
    match Decrypt(key, data)
    case None => Failure(500, "認証処理中にエラーが発生しました")
    case Some(plain) =>
      match Parse(plain)
      case None => Failure(500, "認証処理中にエラーが発生しました")
      case Some(j) =>
        match StoredPassword(j)
        case None => Failure(500, "認証処理中にエラーが発生しました")
        case Some(stored) => Decide(stored, id, password, production)
  }

  /** `POST /api/verify_password` given what the get under `fetchKey(id)`
      returns; `fetched` is only consulted when an id was sent. */
  function Verify(key: Key, req: Request, fetched: Fetched, production: bool): (r: Response)
    ensures r.status in {200, 400, 401, 404, 500}
    ensures r.success <==> r.status == 200
    ensures r.cookie.Some? <==> r.status == 200
    ensures req.Unreadable? ==> r.status == 500
    ensures req.Request? && !req.id.Truthy() ==> r == Failure(400, "IDが必要です")
    ensures req.Request? && req.id.Truthy() && fetched.GetFailed? ==> r == Failure(404, "キャラクターが見つかりません")
    ensures req.Request? && req.id.Truthy() && fetched.NoBody? ==> r.status == 500
    ensures r.status == 200 ==> r.cookie == Some(Grant(req.id.s, production))
  {
    match req
    case Unreadable => Failure(500, "認証処理中にエラーが発生しました")
    case Request(id, password) =>
      if !id.Truthy() then Failure(400, "IDが必要です")
      else
        match fetched
        case GetFailed => Failure(404, "キャラクターが見つかりません")
        case NoBody => Failure(500, "データの読み込みに失敗しました")
        case Got(data) => Authorize(key, id.s, password, data, production)
  }

  /** The route's handler step by step: the early returns, then the
      `isAuthorized` flag set by the two password branches. */
  method Post(key: Key, req: Request, fetched: Fetched, production: bool) returns (r: Response)
    ensures r == Verify(key, req, fetched, production)
  {
    if req.Unreadable? {
      return Failure(500, "認証処理中にエラーが発生しました");
    }
    if !req.id.Truthy() {
      return Failure(400, "IDが必要です");
    }
    if fetched.GetFailed? {
      return Failure(404, "キャラクターが見つかりません");
    }
    if fetched.NoBody? {
      return Failure(500, "データの読み込みに失敗しました");
    }
    var plain := Decrypt(key, fetched.data);
    if plain.None? {
      return Failure(500, "認証処理中にエラーが発生しました");
    }
    var charData := Parse(plain.value);
    if charData.None? || charData.value.JNull? {
      return Failure(500, "認証処理中にエラーが発生しました");
    }
    var storedPassword := Member(charData.value, "password");
    var isAuthorized := false;
    if !JsonTruthy(storedPassword) {
      isAuthorized := true;
    } else if StrictEquals(storedPassword, req.password) {
      isAuthorized := true;
    }
    if isAuthorized {
      r := Response(200, true, None, Some(Grant(req.id.s, production)));
    } else {
      r := Failure(401, "パスワードが違います");
    }
  }

  /** The key the route reads: `${id}.bin`. */
  function RouteKey(id: string): string {
    LegacyKey(id)
  }

  /** The route against a bucket. */
  function VerifyStored(objects: Objects, key: Key, req: Request, production: bool): Response {
    var fetched := if req.Request? && req.id.Truthy() then Fetch(objects, RouteKey(req.id.s)) else GetFailed;
    Verify(key, req, fetched, production)
  }

  /** The authorization rule: with a record that decrypts and parses to an
      object, the answer is 200 exactly when the stored password is falsy or
      strictly equal to the submitted one, and 401 otherwise; any decrypt or
      parse failure is 500. */
  lemma AuthorizeCorrect(key: Key, id: string, password: Text, data: bytes, production: bool)
    ensures var r := Authorize(key, id, password, data, production);
            && (Decrypt(key, data).None? ==> r.status == 500)
            && (Decrypt(key, data).Some? && Parse(Decrypt(key, data).value).None? ==> r.status == 500)
            && (Decrypt(key, data).Some? && Parse(Decrypt(key, data).value) == Some(JNull) ==> r.status == 500)
            && (Decrypt(key, data).Some? && Parse(Decrypt(key, data).value).Some? && Parse(Decrypt(key, data).value).value.JObj? ==>
                  var stored := Member(Parse(Decrypt(key, data).value).value, "password");
                  && (r.status == 200 <==> !JsonTruthy(stored) || StrictEquals(stored, password))
                  && (r.status != 200 ==> r == Failure(401, "パスワードが違います")))
  {
    match Decrypt(key, data)
    case None =>
    case Some(plain) =>
      match Parse(plain)
      case None =>
      case Some(j) =>
        if j.JObj? {
          assert Authorize(key, id, password, data, production) == Decide(Member(j, "password"), id, password, production);
        }
  }

  /** A falsy stored password lets any submitted password through. */
  lemma NoPasswordAuthorizesAll(key: Key, id: string, p1: Text, p2: Text, data: bytes, production: bool)
    ensures Authorize(key, id, p1, data, production) == Authorize(key, id, p2, data, production)
            || (Decrypt(key, data).Some? && Parse(Decrypt(key, data).value).Some?
                && StoredPassword(Parse(Decrypt(key, data).value).value).Some?
                && JsonTruthy(StoredPassword(Parse(Decrypt(key, data).value).value).value))
  {
  }

  /** The cookie a successful check grants is the one the edit page asks
      for: with it in the jar, the page for that key renders the form. */
  lemma GrantOpensEditPage(objects: Objects, key: Key, req: Request, fetched: Fetched, production: bool,
                           cookies: Cookies, clone: Text)
    requires Verify(key, req, fetched, production).status == 200
    ensures var g := Verify(key, req, fetched, production).cookie.value;
            var jar := cookies[g.name := g.value];
            && EditAllowed(jar, req.id.s)
            && !Render(objects, key, req.id, clone, jar).Redirect?
  {
    var g := Verify(key, req, fetched, production).cookie.value;
    RenderGuard(objects, key, req.id, clone, cookies[g.name := g.value]);
  }

  // ---------------------------------------------------------------------------
  // The record the route reads is not the one the save writes

  /** As written: a record saved through the storage layer, when no legacy
      `<id>.bin` copy exists, is answered 404 whatever password is given,
      although the edit page can load it. */
  lemma SavedRecordNotFound(objects: Objects, key: Key, c: Character, now: string, iv: bytes,
                            password: Text, production: bool)
    requires |iv| == BlockSize && c.id != "" && c.id != "index" && '/' !in c.id
    requires LegacyKey(c.id) !in objects
    ensures VerifyStored(AfterSave(objects, key, c, now, iv), key, Request(Str(c.id), password), production).status == 404
    ensures GetCharacterById(AfterSave(objects, key, c, now, iv), key, c.id).Some?
  {
    SaveKeepsLegacy(objects, key, c, now, iv);
    SaveThenRead(objects, key, c, now, iv);
  }

  /** Corrected: the route reads the record where the edit page does. */
  function VerifyCorrected(objects: Objects, key: Key, req: Request, production: bool): Response {
    var fetched := if req.Request? && req.id.Truthy() then Fetch(objects, LookupKey(req.id.s)) else GetFailed;
    Verify(key, req, fetched, production)
  }

  /** With the corrected route, a saved record is granted for its own
      password, granted for any password when it has none, and refused with
      401 for any other password. */
  lemma SavedRecordVerified(objects: Objects, key: Key, c: Character, now: string, iv: bytes,
                            password: Text, production: bool)
    requires |iv| == BlockSize && c.id != "" && c.id != "index" && '/' !in c.id
    ensures var r := VerifyCorrected(AfterSave(objects, key, c, now, iv), key, Request(Str(c.id), password), production);
            && (r.status == 200 <==> !c.password.Truthy() || password == c.password)
            && (r.status != 200 ==> r.status == 401)
  {
    var saved := Saved(c, now);
    var after := AfterSave(objects, key, c, now, iv);
    RecordKeyNotIndex(c.id);
    assert RecordKey(c.id) in after && after[RecordKey(c.id)] == Encrypt(key, iv, RecordBytes(saved));
    CorrectedReadsRecord(after, key, c.id, password, production);
    AuthorizeSaved(key, c.id, password, iv, saved, production);
  }

  /** The corrected route decides on the blob under the id's record key. */
  lemma CorrectedReadsRecord(objects: Objects, key: Key, id: string, password: Text, production: bool)
    requires id != "" && '/' !in id && RecordKey(id) in objects
    ensures VerifyCorrected(objects, key, Request(Str(id), password), production)
            == Authorize(key, id, password, objects[RecordKey(id)], production)
  {
  }

  /** The decision on the bytes of a record written by the save. */
  lemma AuthorizeSaved(key: Key, id: string, password: Text, iv: bytes, saved: Character, production: bool)
    requires |iv| == BlockSize
    ensures var r := Authorize(key, id, password, Encrypt(key, iv, RecordBytes(saved)), production);
            && (r.status == 200 <==> !saved.password.Truthy() || password == saved.password)
            && (r.status != 200 ==> r.status == 401)
  {
    var data := Encrypt(key, iv, RecordBytes(saved));
    var j := CharacterJson(saved);
    DecryptEncrypt(key, iv, RecordBytes(saved));
    ParseEncode(j);
    assert Member(j, "password") == TextJson(saved.password) by {
      CharacterMembers(saved);
    }
    AuthorizeText(key, id, password, data, RecordBytes(saved), j, saved.password, production);
  }

  /** The decision on an object whose password member is a string or absent. */
  lemma AuthorizeText(key: Key, id: string, password: Text, data: bytes, plain: bytes, j: Json, stored: Text,
                      production: bool)
    requires Decrypt(key, data) == Some(plain) && Parse(plain) == Some(j) && j.JObj?
    requires Member(j, "password") == TextJson(stored)
    ensures var r := Authorize(key, id, password, data, production);
            && (r.status == 200 <==> !stored.Truthy() || password == stored)
            && (r.status != 200 ==> r.status == 401)
  {
    assert Authorize(key, id, password, data, production) == Decide(TextJson(stored), id, password, production);
    DecideText(stored, id, password, production);
  }

  /** The comparison against a stored string or an absent member. */
  lemma DecideText(stored: Text, id: string, password: Text, production: bool)
    ensures var r := Decide(TextJson(stored), id, password, production);
            && (r.status == 200 <==> !stored.Truthy() || password == stored)
            && (r.status != 200 ==> r.status == 401)
  {
  }
}
