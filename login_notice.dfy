/**
 * The login notification: the client address is taken from the proxy
 * headers, and a security email goes out unless the address is on the
 * comma-separated exclude list.
 */
module LoginNotice {
  import opened Wrappers
  import opened Strings

  const Localhost := "127.0.0.1"

  /** `a || b` on an optional header value: an empty string is falsy. */
  function OrElse(a: Option<string>, b: string): (r: string)
    ensures a.Some? && a.value != "" ==> r == a.value
    ensures a.None? || a.value == "" ==> r == b
  {
    if a.Some? && a.value != "" then a.value else b
  }

  /** The client address: the first comma-separated piece of
      `x-forwarded-for`, untrimmed, when that is non-empty; else a non-empty
      `x-real-ip`; else the loopback address. It is never empty. */
  function ClientIp(forwardedFor: Option<string>, realIp: Option<string>): (r: string)
    ensures r != ""
    ensures forwardedFor.Some? && Split(forwardedFor.value, ',')[0] != "" ==> r == Split(forwardedFor.value, ',')[0]
    ensures forwardedFor.None? || Split(forwardedFor.value, ',')[0] == "" ==> r == OrElse(realIp, Localhost)
    ensures (forwardedFor.None? || Split(forwardedFor.value, ',')[0] == "") && (realIp.None? || realIp.value == "") ==>
              r == Localhost
  {
    var first := if forwardedFor.Some? then Some(Split(forwardedFor.value, ',')[0]) else None;
    OrElse(first, OrElse(realIp, Localhost))
  }

  /** `(EXCLUDE_IPS || '').split(',').map((item) => item.trim())` */
  function ExcludeList(env: Option<string>): (r: seq<string>)
    ensures |r| >= 1
    ensures |r| == |Split(OrElse(env, ""), ',')|
    ensures forall i :: 0 <= i < |r| ==> r[i] == Trim(Split(OrElse(env, ""), ',')[i])
  {
    var parts := Split(OrElse(env, ""), ',');
    seq(|parts|, i requires 0 <= i < |parts| => Trim(parts[i]))
  }

  /** What a login leads to: nothing for an excluded address, otherwise an
      email naming the address, the device and the time. */
  datatype Notice = Skipped | Email(subject: string, ip: string, device: string, time: string)

  const Subject := "【キャラクターシート】ログイン通知"

  /** `notifyLoginIP`, with the headers, the exclude list and the clock
      passed in. */
  function NotifyLoginIp(forwardedFor: Option<string>, realIp: Option<string>, userAgent: Option<string>,
                         excludeEnv: Option<string>, now: string): (r: Notice)
    ensures r.Skipped? <==> ClientIp(forwardedFor, realIp) in ExcludeList(excludeEnv)
    ensures r.Email? ==> r == Email(Subject, ClientIp(forwardedFor, realIp), OrElse(userAgent, "Unknown Device"), now)
  {
    var ip := ClientIp(forwardedFor, realIp);
    if ip in ExcludeList(excludeEnv) then Skipped
    else Email(Subject, ip, OrElse(userAgent, "Unknown Device"), now)
  }

  /** With no exclude list (or an empty one) every login is reported: the
      list is then the single empty entry, which no address equals. */
  lemma NoExcludeListAlwaysNotifies(forwardedFor: Option<string>, realIp: Option<string>, userAgent: Option<string>,
                                    env: Option<string>, now: string)
    requires env.None? || env == Some("")
    ensures NotifyLoginIp(forwardedFor, realIp, userAgent, env, now).Email?
  {
    assert ExcludeList(env) == [""] by {
      assert Split("", ',') == [""];
      assert AllWhitespace("");
    }
  }

  /** Entries are trimmed but the forwarded address is not: an address that
      begins or ends with whitespace (such as the first piece of
      " 1.2.3.4,5.6.7.8") never matches an entry. */
  lemma PaddedAddressNeverExcluded(forwardedFor: Option<string>, realIp: Option<string>, env: Option<string>)
    requires var ip := ClientIp(forwardedFor, realIp); IsWhitespace(ip[0]) || IsWhitespace(ip[|ip| - 1])
    ensures ClientIp(forwardedFor, realIp) !in ExcludeList(env)
  {
    var ip := ClientIp(forwardedFor, realIp);
    var parts := Split(OrElse(env, ""), ',');
    var list := ExcludeList(env);
    forall i | 0 <= i < |list|
      ensures list[i] != ip
    {
      TrimNotPadded(parts[i], ip);
    }
  }

  /** No trimmed string begins or ends with whitespace. */
  lemma TrimNotPadded(x: string, ip: string)
    requires ip != "" && (IsWhitespace(ip[0]) || IsWhitespace(ip[|ip| - 1]))
    ensures Trim(x) != ip
  {
  }

  /** Whitespace around an entry of the list does not stop it matching:
      an address written anywhere in the list with spaces around it, and
      forwarded without them, is skipped. */
  lemma ListedAddressSkipped(forwardedFor: string, realIp: Option<string>, env: string, i: nat)
    requires Split(forwardedFor, ',')[0] != ""
    requires i < |Split(env, ',')| && Trim(Split(env, ',')[i]) == Split(forwardedFor, ',')[0]
    ensures NotifyLoginIp(Some(forwardedFor), realIp, None, Some(env), "").Skipped?
  {
    var list := ExcludeList(Some(env));
    if env == "" {
      assert Split(env, ',') == [""];
    }
    assert list[i] == ClientIp(Some(forwardedFor), realIp);
  }
}
