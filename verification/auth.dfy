/**
 * The OAuth side of the calendar client: the credential pair kept in the browser's
 * key/value storage, the query that `getToken` sends to the token endpoint, and the
 * extraction of the authorization code from the redirect URL.
 *
 * Storage is a `map<string, string>`. A key that was never written reads as `null`,
 * and `null` is spelt "null" once it is interpolated into a URL. A JSON field that
 * the token endpoint left out is `undefined`, and `setItem` stores it as the string
 * "undefined".
 */
module Auth {
  import opened Common

  const ACCESS_KEY := "strava-access-token"
  const REFRESH_KEY := "strava-refresh-token"

  /** The token endpoint's answer: nothing usable (the request or the JSON decoding
      rejected), or a JSON body whose two fields may each be missing. */
  datatype TokenReply = Unreachable | Body(accessToken: Option<string>, refreshToken: Option<string>)

  /** A possibly-`undefined` string as JavaScript writes it into a template or into storage. */
  function Text(v: Option<string>): string {
    if v.Some? then v.value else "undefined"
  }

  /** `localStorage.getItem(key)`. */
  function GetItem(items: map<string, string>, key: string): Option<string> {
    if key in items then Some(items[key]) else None
  }

  /** `localStorage.getItem(key)` interpolated into a URL. */
  function Lookup(items: map<string, string>, key: string): string {
    if key in items then items[key] else "null"
  }

  /** JavaScript truthiness of an optional string: present and non-empty. */
  predicate Truthy(v: Option<string>) {
    v.Some? && v.value != ""
  }

  /** The query fields of the token endpoint URL. */
  const CODE_PARAM := "code="
  const AUTHORIZATION_GRANT := "grant_type=authorization_code"
  const REFRESH_PARAM := "refresh_token="
  const REFRESH_GRANT := "grant_type=refresh_token"

  /** The variable tail of the token endpoint URL built by `getToken`: an
      authorization-code grant when `code` is truthy, a refresh-token grant otherwise. */
  function TokenQuery(code: Option<string>, refresh: Option<string>): string {
    if Truthy(code) then "&" + CODE_PARAM + code.value + "&" + AUTHORIZATION_GRANT
    else "&" + REFRESH_PARAM + Text(refresh) + "&" + REFRESH_GRANT
  }

  /** The query the retry loop sends: a refresh grant carrying the stored refresh token. */
  function RefreshQuery(items: map<string, string>): string {
    TokenQuery(None, Some(Lookup(items, REFRESH_KEY)))
  }

  /** Storage after one answered exchange: both tokens written, every other key kept. */
  function Saved(items: map<string, string>, reply: TokenReply): (r: map<string, string>)
    requires reply.Body?
    ensures r.Keys == items.Keys + {ACCESS_KEY, REFRESH_KEY}
    ensures r[ACCESS_KEY] == Text(reply.accessToken) && r[REFRESH_KEY] == Text(reply.refreshToken)
    ensures forall k :: k in items && k != ACCESS_KEY && k != REFRESH_KEY ==> r[k] == items[k]
  {
    items[ACCESS_KEY := Text(reply.accessToken)][REFRESH_KEY := Text(reply.refreshToken)]
  }

  /** Storage after the first `n` of a sequence of exchanges; an unanswered exchange
      writes nothing. */
  function Replayed(items: map<string, string>, replies: seq<TokenReply>, n: nat): map<string, string>
    requires n <= |replies|
    decreases n
  {
    if n == 0 then items
    else
      var before := Replayed(items, replies, n - 1);
      var last := replies[n - 1];
      if last.Body? then Saved(before, last) else before
  }

  /** Last writer wins: because every answered exchange writes both tokens, storage after
      several exchanges depends only on the last answered one. */
  lemma {:induction false} LastExchangeWins(items: map<string, string>, replies: seq<TokenReply>, n: nat)
    requires 0 < n <= |replies| && replies[n - 1].Body?
    ensures Replayed(items, replies, n) == Saved(items, replies[n - 1])
  {
    var last := replies[n - 1];
    var before := Replayed(items, replies, n - 1);
    ReplayedKeepsKeys(items, replies, n - 1);
    assert Saved(before, last).Keys == Saved(items, last).Keys;
  }

  /** Unanswered exchanges after the last answered one write nothing: storage is what
      that answered exchange saved over the initial storage. */
  lemma {:induction false} LatestAnsweredWins(items: map<string, string>, replies: seq<TokenReply>, m: nat, n: nat)
    requires 0 < m <= n <= |replies| && replies[m - 1].Body?
    requires forall j :: m <= j < n ==> replies[j].Unreachable?
    ensures Replayed(items, replies, n) == Saved(items, replies[m - 1])
    decreases n
  {
    if n == m {
      LastExchangeWins(items, replies, m);
    } else {
      LatestAnsweredWins(items, replies, m, n - 1);
    }
  }

  /** A sequence of exchanges none of which is answered leaves storage as it was. */
  lemma {:induction false} NoAnswerKeepsStorage(items: map<string, string>, replies: seq<TokenReply>, n: nat)
    requires n <= |replies|
    requires forall j :: 0 <= j < n ==> replies[j].Unreachable?
    ensures Replayed(items, replies, n) == items
    decreases n
  {
    if n > 0 {
      NoAnswerKeepsStorage(items, replies, n - 1);
    }
  }

  /** Exchanges never remove a key and never touch a key other than the two tokens. */
  lemma {:induction false} ReplayedKeepsKeys(items: map<string, string>, replies: seq<TokenReply>, n: nat)
    requires n <= |replies|
    ensures items.Keys <= Replayed(items, replies, n).Keys <= items.Keys + {ACCESS_KEY, REFRESH_KEY}
    ensures forall k :: k in items && k != ACCESS_KEY && k != REFRESH_KEY ==> Replayed(items, replies, n)[k] == items[k]
    decreases n
  {
    if n > 0 {
      ReplayedKeepsKeys(items, replies, n - 1);
    }
  }

  /** The in-memory stand-in for the browser's durable storage. */
  class CredentialStore {
    var items: map<string, string>

    constructor (initial: map<string, string>)
      ensures items == initial
    {
      items := initial;
    }

    /** `getToken`: sends `TokenQuery(code, refresh)` and, when the endpoint answers,
        writes the access token and the refresh token in one step. */
    method GetToken(code: Option<string>, refresh: Option<string>, reply: TokenReply) returns (query: string)
      modifies this
      ensures query == TokenQuery(code, refresh)
      ensures items == if reply.Body? then Saved(old(items), reply) else old(items)
    {
      query := TokenQuery(code, refresh);
      if reply.Body? {
        items := Saved(items, reply);
      }
    }
  }

  /** `String.prototype.split` on a single-character separator. */
  function Split(s: string, sep: char): (parts: seq<string>)
    ensures |parts| >= 1
    decreases |s|
  {
    if s == [] then [""]
    else
      var rest := Split(s[1..], sep);
      if s[0] == sep then [""] + rest else [[s[0]] + rest[0]] + rest[1..]
  }

  /** Splitting gives a single segment exactly when the separator does not occur. */
  lemma {:induction false} SplitSingle(s: string, sep: char)
    ensures |Split(s, sep)| == 1 <==> sep !in s
    ensures sep !in s ==> Split(s, sep) == [s]
    decreases |s|
  {
    if s != [] {
      SplitSingle(s[1..], sep);
      assert s == [s[0]] + s[1..];
    }
  }

  /** Splitting `a + sep + b` splits `a` and `b` separately. */
  lemma {:induction false} SplitConcat(a: string, b: string, sep: char)
    ensures Split(a + [sep] + b, sep) == Split(a, sep) + Split(b, sep)
    decreases |a|
  {
    var s := a + [sep] + b;
    if a == [] {
      assert s[0] == sep && s[1..] == b;
    } else {
      var ra, rb := Split(a[1..], sep), Split(b, sep);
      assert s[0] == a[0];
      assert s[1..] == a[1..] + [sep] + b;
      SplitConcat(a[1..], b, sep);
      if a[0] == sep {
        Associative([""], ra, rb);
      } else {
        var head := [[a[0]] + ra[0]];
        assert (ra + rb)[0] == ra[0];
        assert (ra + rb)[1..] == ra[1..] + rb;
        Associative(head, ra[1..], rb);
      }
    }
  }

  /** `s.slice(n)`: everything after the first `n` characters, or "" for a shorter string. */
  function Drop(s: string, n: nat): string {
    if |s| <= n then "" else s[n..]
  }

  /** The authorization code in the redirect URL: the second `&`-segment with its first
      five characters (`code=`) dropped; nothing when the URL has no `&`. */
  function CallbackCode(href: string): Option<string> {
    var parts := Split(href, '&');
    if |parts| == 1 then None else Some(Drop(parts[1], 5))
  }

  /** No `&` in the URL means no code, and therefore no exchange. */
  lemma CallbackCodeAbsent(href: string)
    ensures CallbackCode(href).None? <==> '&' !in href
  {
    SplitSingle(href, '&');
  }

  /** For a URL `a&code=c` or `a&code=c&...` whose `a` and `c` hold no `&`, the code is `c`. */
  lemma CallbackCodeFound(a: string, c: string, tail: string)
    requires '&' !in a && '&' !in c
    requires tail == [] || tail[0] == '&'
    ensures CallbackCode(a + "&" + CODE_PARAM + c + tail) == Some(c)
  {
    var seg := CODE_PARAM + c;
    var href := a + "&" + CODE_PARAM + c + tail;
    Associative(a + "&", CODE_PARAM, c);
    Associative(a + "&", seg, tail);
    Associative(a, "&", seg + tail);
    assert href == a + "&" + (seg + tail);
    SplitSingle(a, '&');
    SplitSingle(seg, '&');
    if tail == [] {
      assert seg + tail == seg;
      SplitConcat(a, seg, '&');
    } else {
      var rest := tail[1..];
      assert tail == "&" + rest;
      Associative(seg, "&", rest);
      SplitConcat(a, seg + "&" + rest, '&');
      SplitConcat(seg, rest, '&');
    }
    assert seg[5..] == c;
  }

  /** Splits a query `&pt&y` whose parts hold no `&` into its three segments. */
  lemma SplitQuery(p: string, t: string, y: string)
    requires '&' !in p && '&' !in t && '&' !in y
    ensures Split("&" + p + t + "&" + y, '&') == ["", p + t, y]
  {
    var x := p + t;
    var q := "&" + p + t + "&" + y;
    Associative("&", p, t);
    Associative("&", x, "&");
    Associative("&", x + "&", y);
    assert q == "&" + (x + "&" + y);
    assert q[0] == '&' && q[1..] == x + "&" + y;
    SplitSingle(x, '&');
    SplitSingle(y, '&');
    SplitConcat(x, y, '&');
  }

  /** With a truthy code the query is an authorization-code grant naming that code. */
  lemma AuthorizationQueryFields(c: string, refresh: Option<string>)
    requires c != "" && '&' !in c
    ensures Split(TokenQuery(Some(c), refresh), '&') == ["", CODE_PARAM + c, AUTHORIZATION_GRANT]
  {
    SplitQuery(CODE_PARAM, c, AUTHORIZATION_GRANT);
  }

  /** Without a truthy code the query is a refresh grant naming the given refresh token. */
  lemma RefreshQueryFields(code: Option<string>, refresh: Option<string>)
    requires !Truthy(code) && '&' !in Text(refresh)
    ensures Split(TokenQuery(code, refresh), '&') == ["", REFRESH_PARAM + Text(refresh), REFRESH_GRANT]
  {
    SplitQuery(REFRESH_PARAM, Text(refresh), REFRESH_GRANT);
  }

  /** The start-up "authenticated" test: a token counts as present unless storage holds
      the literal string "undefined" for it, so a key that was never written counts. */
  predicate LooksAuthenticated(items: map<string, string>) {
    GetItem(items, ACCESS_KEY) != Some("undefined") || GetItem(items, REFRESH_KEY) != Some("undefined")
  }

  /** The query the start-up hook sends after the OAuth redirect, if any: nothing when
      storage looks authenticated or the URL has no `&`, otherwise `getToken(code)`. */
  function CallbackQuery(items: map<string, string>, href: string): (q: Option<string>)
    ensures q.None? <==> LooksAuthenticated(items) || '&' !in href
    ensures q.Some? ==> q == Some(TokenQuery(CallbackCode(href), None))
  {
    CallbackCodeAbsent(href);
    if LooksAuthenticated(items) then None
    else
      match CallbackCode(href)
      case None => None
      case Some(code) => Some(TokenQuery(Some(code), None))
  }

  /** Storage that holds neither token passes the "authenticated" test, so the redirect's
      code is never exchanged from an empty storage. */
  lemma EmptyStorageSkipsCallback(href: string)
    ensures LooksAuthenticated(map[])
    ensures CallbackQuery(map[], href) == None
  {
  }

  /** A redirect whose second segment is shorter than `code=` yields the empty code, which
      is falsy, so `getToken` falls back to a refresh grant with an undefined token. */
  lemma ShortSegmentFallsBackToRefresh()
    ensures CallbackQuery(map[ACCESS_KEY := "undefined", REFRESH_KEY := "undefined"], "x&abc")
         == Some("&" + REFRESH_PARAM + "undefined" + "&" + REFRESH_GRANT)
  {
    assert "x&abc" == "x" + ['&'] + "abc";
    SplitConcat("x", "abc", '&');
    SplitSingle("x", '&');
    SplitSingle("abc", '&');
    assert CallbackCode("x&abc") == Some("");
    var items := map[ACCESS_KEY := "undefined", REFRESH_KEY := "undefined"];
    assert !LooksAuthenticated(items);
  }
}
