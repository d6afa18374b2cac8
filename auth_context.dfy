/** The authentication session of `AuthProvider`: the `user`, `token` and
    `loading` state together with the two `localStorage` keys it reads on
    start-up and writes on login and logout, and the `useAuth` guard. */
module AuthContext {
  import opened Wrappers

  // ------------------------------------------------- stored user value

  /** What callers pass as `userData`: the register page passes the user
      object of the server's answer, the login page passes the e-mail text. */
  datatype UserData =
    | UserText(text: string)
    | UserProfile(id: string, name: string, email: string)

  /** A string's body inside JSON quotes: '"' and '\' get a backslash. */
  function Escape(s: string): string
  {
    if s == [] then ""
    else (if s[0] == '"' || s[0] == '\\' then ['\\', s[0]] else [s[0]]) + Escape(s[1..])
  }

  function Quote(s: string): string
  {
    "\"" + Escape(s) + "\""
  }

  /** `JSON.stringify(userData)`. */
  function Encode(u: UserData): string
  {
    match u
    case UserText(t) => Quote(t)
    case UserProfile(id, name, email) =>
      "{\"id\":" + Quote(id) + ",\"name\":" + Quote(name) + ",\"email\":" + Quote(email) + "}"
  }

  /** Reads an escaped string body up to its closing quote; gives the text
      and what follows the quote. Only the two escapes `Encode` writes are
      read. */
  function ReadBody(t: string): Option<(string, string)>
  {
    if t == [] then None
    else if t[0] == '"' then Some(("", t[1..]))
    else if t[0] == '\\' then
      if |t| < 2 || (t[1] != '"' && t[1] != '\\') then None
      else match ReadBody(t[2..])
        case None => None
        case Some((s, rest)) => Some(([t[1]] + s, rest))
    else match ReadBody(t[1..])
      case None => None
      case Some((s, rest)) => Some(([t[0]] + s, rest))
  }

  /** Reads a quoted string at the start of `t`. */
  function ReadQuoted(t: string): Option<(string, string)>
  {
    if t == [] || t[0] != '"' then None else ReadBody(t[1..])
  }

  /** Removes the literal `p` from the front of `t`. */
  function Expect(p: string, t: string): Option<string>
  {
    if |p| <= |t| && t[..|p|] == p then Some(t[|p|..]) else None
  }

  /** `JSON.parse(stored)` for the values `Encode` writes; `None` stands for
      a `SyntaxError`, and is also the answer for every other text, valid
      JSON included (see `DecodeAcceptsExactlyEncoded`). */
  function Decode(t: string): Option<UserData>
  {
    if t != [] && t[0] == '"' then
      match ReadQuoted(t)
      case Some((s, rest)) => if rest == "" then Some(UserText(s)) else None
      case None => None
    else
      match Expect("{\"id\":", t)
      case None => None
      case Some(t1) =>
        match ReadQuoted(t1)
        case None => None
        case Some((id, t2)) =>
          match Expect(",\"name\":", t2)
          case None => None
          case Some(t3) =>
            match ReadQuoted(t3)
            case None => None
            case Some((name, t4)) =>
              match Expect(",\"email\":", t4)
              case None => None
              case Some(t5) =>
                match ReadQuoted(t5)
                case None => None
                case Some((email, t6)) =>
                  if t6 == "}" then Some(UserProfile(id, name, email)) else None
  }

  lemma {:induction false} ReadBodyEscape(s: string, rest: string)
    ensures ReadBody(Escape(s) + "\"" + rest) == Some((s, rest))
  {
    if s == [] {
      assert Escape(s) + "\"" + rest == "\"" + rest;
    } else {
      var t := Escape(s) + "\"" + rest;
      var tail := Escape(s[1..]) + "\"" + rest;
      ReadBodyEscape(s[1..], rest);
      var head := if s[0] == '"' || s[0] == '\\' then ['\\', s[0]] else [s[0]];
      Regroup(head, Escape(s[1..]), rest);
      assert t == head + tail;
      if s[0] == '"' || s[0] == '\\' {
        assert t[0] == '\\' && t[1] == s[0] && t[2..] == tail;
      } else {
        assert t[0] == s[0] && t[1..] == tail;
      }
      assert [s[0]] + s[1..] == s;
    }
  }

  lemma Regroup(head: string, body: string, rest: string)
    ensures head + body + "\"" + rest == head + (body + "\"" + rest)
  {
  }

  lemma ReadQuotedQuote(s: string, rest: string)
    ensures ReadQuoted(Quote(s) + rest) == Some((s, rest))
  {
    var t := Quote(s) + rest;
    assert t[1..] == Escape(s) + "\"" + rest;
    ReadBodyEscape(s, rest);
  }

  lemma ExpectPrefix(p: string, rest: string)
    ensures Expect(p, p + rest) == Some(rest)
  {
    assert (p + rest)[..|p|] == p;
    assert (p + rest)[|p|..] == rest;
  }

  /** Whatever user value is stored is read back unchanged: the stringify and
      parse pair is a round trip. */
  lemma DecodeEncode(u: UserData)
    ensures Decode(Encode(u)) == Some(u)
  {
    match u
    case UserText(t) =>
      ReadQuotedQuote(t, "");
      assert Quote(t) + "" == Quote(t);
    case UserProfile(id, name, email) =>
      var tail6 := "}";
      var tail5 := Quote(email) + tail6;
      var tail4 := ",\"email\":" + tail5;
      var tail3 := Quote(name) + tail4;
      var tail2 := ",\"name\":" + tail3;
      var tail1 := Quote(id) + tail2;
      var whole := "{\"id\":" + tail1;
      Nest("{\"id\":", Quote(id), ",\"name\":", Quote(name), ",\"email\":", Quote(email), tail6);
      assert Encode(u) == whole;
      assert whole[0] == '{';
      ExpectPrefix("{\"id\":", tail1);
      ReadQuotedQuote(id, tail2);
      ExpectPrefix(",\"name\":", tail3);
      ReadQuotedQuote(name, tail4);
      ExpectPrefix(",\"email\":", tail5);
      ReadQuotedQuote(email, tail6);
  }

  lemma Nest(a: string, b: string, c: string, d: string, e: string, f: string, g: string)
    ensures a + b + c + d + e + f + g == a + (b + (c + (d + (e + (f + g)))))
  {
  }

  lemma {:induction false} ReadBodyExact(t: string)
    requires ReadBody(t).Some?
    ensures t == Escape(ReadBody(t).value.0) + "\"" + ReadBody(t).value.1
    decreases |t|
  {
    var body := ReadBody(t).value.0;
    var rest := ReadBody(t).value.1;
    if t[0] == '"' {
      assert body == "" && rest == t[1..];
      assert t == [t[0]] + t[1..];
    } else if t[0] == '\\' {
      ReadBodyExact(t[2..]);
      var inner := ReadBody(t[2..]).value.0;
      assert body == [t[1]] + inner;
      assert body[0] == t[1] && body[1..] == inner;
      assert Escape(body) == ['\\', t[1]] + Escape(inner);
      assert t == [t[0], t[1]] + t[2..];
    } else {
      ReadBodyExact(t[1..]);
      var inner := ReadBody(t[1..]).value.0;
      assert body == [t[0]] + inner;
      assert body[0] == t[0] && body[1..] == inner;
      assert Escape(body) == [t[0]] + Escape(inner);
      assert t == [t[0]] + t[1..];
    }
  }

  lemma ReadQuotedExact(t: string)
    requires ReadQuoted(t).Some?
    ensures t == Quote(ReadQuoted(t).value.0) + ReadQuoted(t).value.1
  {
    ReadBodyExact(t[1..]);
    assert t == [t[0]] + t[1..];
  }

  lemma ExpectExact(p: string, t: string)
    requires Expect(p, t).Some?
    ensures t == p + Expect(p, t).value
  {
    assert t == t[..|p|] + t[|p|..];
  }

  /** Whatever `Decode` accepts is exactly what `Encode` writes for the
      value it gives. */
  lemma DecodeExact(t: string)
    requires Decode(t).Some?
    ensures Encode(Decode(t).value) == t
  {
    if t != [] && t[0] == '"' {
      ReadQuotedExact(t);
      assert t == Quote(ReadQuoted(t).value.0) + "";
    } else {
      var p1, p2, p3 := "{\"id\":", ",\"name\":", ",\"email\":";
      var t1 := Expect(p1, t).value;
      ExpectExact(p1, t);
      var id, t2 := ReadQuoted(t1).value.0, ReadQuoted(t1).value.1;
      ReadQuotedExact(t1);
      var t3 := Expect(p2, t2).value;
      ExpectExact(p2, t2);
      var name, t4 := ReadQuoted(t3).value.0, ReadQuoted(t3).value.1;
      ReadQuotedExact(t3);
      var t5 := Expect(p3, t4).value;
      ExpectExact(p3, t4);
      var email, t6 := ReadQuoted(t5).value.0, ReadQuoted(t5).value.1;
      ReadQuotedExact(t5);
      assert t6 == "}";
      assert Decode(t).value == UserProfile(id, name, email);
      Nest(p1, Quote(id), p2, Quote(name), p3, Quote(email), t6);
    }
  }

  /** The stored text parses exactly when `Encode` could have written it. */
  lemma DecodeAcceptsExactlyEncoded(t: string)
    ensures Decode(t).Some? <==> exists u :: Encode(u) == t
  {
    if Decode(t).Some? {
      DecodeExact(t);
    }
    if exists u :: Encode(u) == t {
      var u :| Encode(u) == t;
      DecodeEncode(u);
    }
  }

  /** A stored user value is never the empty (falsy) string. */
  lemma EncodeNotEmpty(u: UserData)
    ensures Encode(u) != ""
  {
    match u
    case UserText(t) => assert Encode(u)[0] == '"';
    case UserProfile(_, _, _) => assert Encode(u)[0] == '{';
  }

  // ------------------------------------------------------ the session

  const TokenKey: string := "token"
  const UserKey: string := "user"

  /** The provider's state and the browser's `localStorage`. */
  datatype Session = Session(user: Option<UserData>, token: Option<string>, loading: bool,
                             storage: map<string, string>)

  /** `localStorage.getItem(key)`: `null` when the key is absent. */
  function Item(storage: map<string, string>, key: string): Option<string>
  {
    if key in storage then Some(storage[key]) else None
  }

  /** The state before the start-up effect runs. */
  function Initial(storage: map<string, string>): Session
  {
    Session(None, None, true, storage)
  }

  /** `if (storedToken && storedUser)`: both keys hold non-empty text. */
  predicate HasStoredSession(storage: map<string, string>)
  {
    TokenKey in storage && storage[TokenKey] != "" && UserKey in storage && storage[UserKey] != ""
  }

  /** The start-up effect throws when the stored user does not parse:
      `setToken` has run, `setUser` and `setLoading` have not. */
  predicate RestoreThrows(s: Session)
  {
    HasStoredSession(s.storage) && Decode(s.storage[UserKey]).None?
  }

  /** The start-up effect of `AuthProvider`. */
  function Restore(s: Session): Session
  {
    if HasStoredSession(s.storage) then
      match Decode(s.storage[UserKey])
      case Some(u) => Session(Some(u), Some(s.storage[TokenKey]), false, s.storage)
      case None => s.(token := Some(s.storage[TokenKey]))
    else s.(loading := false)
  }

  /** `login(userData, authToken)`. `accepted` says whether the browser
      accepts the two `setItem` writes; when it refuses, the first write
      throws after the three state setters have run. */
  function LoggedIn(s: Session, u: UserData, t: string, accepted: bool): Session
  {
    Session(Some(u), Some(t), false,
            if accepted then s.storage[TokenKey := t][UserKey := Encode(u)] else s.storage)
  }

  /** `logout()`. */
  function LoggedOut(s: Session): Session
  {
    Session(None, None, false, s.storage - {TokenKey, UserKey})
  }

  /** Start-up restores a session exactly when both keys hold text and the user
      parses; it clears `loading` unless the parse throws, which happens
      exactly when the stored user is not a text `Encode` writes. */
  lemma RestoreFromStorage(storage: map<string, string>)
    ensures var r := Restore(Initial(storage));
            && (r.token.Some? <==> HasStoredSession(storage))
            && (r.token.Some? ==> r.token.value == storage[TokenKey])
            && (r.user.Some? <==> HasStoredSession(storage) && Decode(storage[UserKey]).Some?)
            && (r.user.Some? ==> Decode(storage[UserKey]) == r.user)
            && (r.loading <==> RestoreThrows(Initial(storage)))
            && r.storage == storage
    ensures RestoreThrows(Initial(storage)) <==>
              HasStoredSession(storage) && forall u :: Encode(u) != storage[UserKey]
  {
    if HasStoredSession(storage) {
      DecodeAcceptsExactlyEncoded(storage[UserKey]);
    }
  }

  /** Reloading after a login whose writes were accepted restores the same
      user and token, provided the token is not the empty string. */
  lemma {:induction false} LoginSurvivesReload(s: Session, u: UserData, t: string)
    requires t != ""
    ensures var stored := LoggedIn(s, u, t, true).storage;
            Restore(Initial(stored)) == Session(Some(u), Some(t), false, stored)
  {
    var stored := LoggedIn(s, u, t, true).storage;
    EncodeNotEmpty(u);
    assert stored[UserKey] == Encode(u) && stored[TokenKey] == t;
    DecodeEncode(u);
  }

  /** Logout removes exactly the two keys and leaves every other one alone. */
  lemma LogoutStorage(s: Session)
    ensures TokenKey !in LoggedOut(s).storage && UserKey !in LoggedOut(s).storage
    ensures forall k :: k != TokenKey && k != UserKey ==>
              (k in LoggedOut(s).storage <==> k in s.storage)
              && (k in s.storage ==> LoggedOut(s).storage[k] == s.storage[k])
  {
  }

  /** Logging out twice is logging out once. */
  lemma LogoutIdempotent(s: Session)
    ensures LoggedOut(LoggedOut(s)) == LoggedOut(s)
  {
  }

  /** Login followed by logout leaves neither key in storage, and a reload
      then starts signed out. */
  lemma LoginThenLogout(s: Session, u: UserData, t: string, accepted: bool)
    ensures var out := LoggedOut(LoggedIn(s, u, t, accepted));
            TokenKey !in out.storage && UserKey !in out.storage
            && out.user.None? && out.token.None? && !out.loading
            && Restore(Initial(out.storage)) == Initial(out.storage).(loading := false)
  {
  }

  // ---------------------------------------------------------- useAuth

  /** The result of `useAuth()`: the provider's value, or the error it throws. */
  datatype AuthLookup = Provided(session: Session) | Thrown(message: string)

  const OutsideProviderMessage: string := "useAuth must be used within an AuthProvider"

  /** `useAuth()` with the nearest provider's value, if any. */
  function UseAuth(context: Option<Session>): (r: AuthLookup)
    ensures r.Thrown? <==> context.None?
    ensures r.Thrown? ==> r.message == OutsideProviderMessage
    ensures context.Some? ==> r == Provided(context.value)
  {
    match context
    case None => Thrown(OutsideProviderMessage)
    case Some(s) => Provided(s)
  }

  // ---------------------------------------------------- the provider

  /** `AuthProvider`'s state, updated in place by its effect and callbacks. */
  class AuthSession {
    var user: Option<UserData>
    var token: Option<string>
    var loading: bool
    var storage: map<string, string>

    function State(): Session
      reads this
    {
      Session(user, token, loading, storage)
    }

    /** `useState(true)`, `useState(null)`, `useState(null)` over the
        browser's current storage. */
    constructor (browserStorage: map<string, string>)
      ensures State() == Initial(browserStorage)
    {
      user, token, loading, storage := None, None, true, browserStorage;
    }

    /** The start-up effect; `threw` is the `JSON.parse` failure. */
    method Init() returns (threw: bool)
      modifies this
      ensures State() == Restore(old(State()))
      ensures threw == RestoreThrows(old(State()))
    {
      var storedToken := Item(storage, TokenKey);
      var storedUser := Item(storage, UserKey);
      threw := false;
      if storedToken.Some? && storedToken.value != "" && storedUser.Some? && storedUser.value != "" {
        token := storedToken;
        var parsed := Decode(storedUser.value);
        if parsed.Some? {
          user := parsed;
          loading := false;
        } else {
          threw := true;
        }
      } else {
        loading := false;
      }
    }

    /** `login(userData, authToken)`; `ok` is false when a storage write threw. */
    method Login(userData: UserData, authToken: string, accepted: bool) returns (ok: bool)
      modifies this
      ensures State() == LoggedIn(old(State()), userData, authToken, accepted)
      ensures ok == accepted
    {
      user := Some(userData);
      token := Some(authToken);
      loading := false;
      ok := accepted;
      if accepted {
        storage := storage[TokenKey := authToken];
        storage := storage[UserKey := Encode(userData)];
      }
    }

    /** `logout()`. */
    method Logout()
      modifies this
      ensures State() == LoggedOut(old(State()))
    {
      user := None;
      token := None;
      loading := false;
      storage := storage - {TokenKey};
      storage := storage - {UserKey};
    }
  }
}
