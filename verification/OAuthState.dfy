/**
 * The signed cookie that carries OAuth state between Start and Callback
 * (internal/http/features/google/handler.go). A Go string is its sequence of bytes.
 */
module OAuthState {
  import opened Prelude
  import opened Text
  import Base64

  type Bytes = seq<byte>

  const PIPE: byte := 124

  const SECOND := 1_000_000_000

  /** Nanoseconds cut to whole seconds, which is all that RFC 3339 text keeps. */
  function Truncate(t: int): int { t - t % SECOND }

  /** time.Format and time.Parse with the RFC 3339 layout. */
  datatype TimeText = TimeText(format: int -> Bytes, parse: Bytes -> Option<int>)

  ghost predicate Faithful(tt: TimeText) {
    forall t :: PIPE !in tt.format(t) && tt.parse(tt.format(t)) == Some(Truncate(t))
  }

  /** HMAC-SHA256 under the configured key. */
  type Mac = Bytes -> Bytes

  datatype State = State(nonce: Bytes, redirectUri: Bytes, expiresAt: int)

  datatype CallbackError = InvalidState | ExpiredState

  function AsciiBytes(s: string): Bytes
    requires forall i | 0 <= i < |s| :: s[i] as int < 128
  {
    seq(|s|, i requires 0 <= i < |s| => s[i] as int)
  }

  /** The bytes of base64url text, which is all ASCII. */
  function UrlText(b: Bytes): Bytes {
    Base64IsAscii(b);
    AsciiBytes(Base64.Encode(Base64.URL, b))
  }

  lemma AlphabetIsAscii(c: char)
    requires Base64.InAlphabet(Base64.URL, c)
    ensures c as int < 128 && c as int != PIPE
  {
    assert c as int <= 'z' as int;
  }

  lemma Base64IsAscii(b: Bytes)
    ensures forall i | 0 <= i < |Base64.Encode(Base64.URL, b)| ::
      Base64.Encode(Base64.URL, b)[i] as int < 128 && Base64.Encode(Base64.URL, b)[i] as int != PIPE
  {
    var s := Base64.Encode(Base64.URL, b);
    Base64.EncodeAlphabet(Base64.URL, b);
    forall i | 0 <= i < |s| ensures s[i] as int < 128 && s[i] as int != PIPE {
      assert s[i] in s;
      AlphabetIsAscii(s[i]);
    }
  }

  function SignState(mac: Mac, data: Bytes): Bytes {
    UrlText(mac(data))
  }

  predicate VerifySignature(mac: Mac, data: Bytes, signature: Bytes) {
    SignState(mac, data) == signature
  }

  function StateData(nonce: Bytes, redirectUri: Bytes, expiry: Bytes): Bytes {
    Join([nonce, redirectUri, expiry], PIPE)
  }

  function CookieText(mac: Mac, nonce: Bytes, redirectUri: Bytes, expiry: Bytes): Bytes {
    Join([nonce, redirectUri, expiry, SignState(mac, StateData(nonce, redirectUri, expiry))], PIPE)
  }

  const STATE_TTL := 600 * SECOND

  const ROOT_PATH: Bytes := [47]

  /** What Start remembers: a random nonce in base64url, the requested return address or "/", ten minutes. */
  function StartState(random: Bytes, redirectUri: Bytes, redirectUrl: Bytes, now: int): State {
    var target := if redirectUri != [] then redirectUri else if redirectUrl != [] then redirectUrl else ROOT_PATH;
    State(UrlText(random), target, now + STATE_TTL)
  }

  /** The cookie value that Start sets. */
  function PackCookie(mac: Mac, tt: TimeText, st: State): string {
    Base64.Encode(Base64.URL, CookieText(mac, st.nonce, st.redirectUri, tt.format(st.expiresAt)))
  }

  /** The state Callback recovers from a cookie value, if its signature and expiry text check out. */
  function UnpackCookie(mac: Mac, tt: TimeText, cookie: string): Option<State> {
    var decoded := Base64.Decode(Base64.URL, cookie);
    if decoded.None? then None
    else
      var parts := SplitN(decoded.value, PIPE, 4);
      if |parts| != 4 || !VerifySignature(mac, StateData(parts[0], parts[1], parts[2]), parts[3]) then None
      else
        var expiry := tt.parse(parts[2]);
        if expiry.None? then None else Some(State(parts[0], parts[1], expiry.value))
  }

  /** Callback's verdict on a cookie when the in-memory store holds nothing for this state. */
  function CallbackState(mac: Mac, tt: TimeText, cookie: string, now: int): Result<State, CallbackError> {
    var st := UnpackCookie(mac, tt, cookie);
    if st.None? then Err(InvalidState)
    else if now > st.value.expiresAt then Err(ExpiredState)
    else Ok(st.value)
  }

  lemma SignatureHasNoPipe(mac: Mac, data: Bytes)
    ensures PIPE !in SignState(mac, data)
  {
    TextHasNoPipe(mac(data));
  }

  lemma TextHasNoPipe(b: Bytes)
    ensures PIPE !in UrlText(b)
  {
    Base64IsAscii(b);
  }

  /** With no pipe in the fields, the four parts come back as they were. */
  lemma SplitCookieText(mac: Mac, nonce: Bytes, redirectUri: Bytes, expiry: Bytes)
    requires PIPE !in nonce && PIPE !in redirectUri && PIPE !in expiry
    ensures SplitN(CookieText(mac, nonce, redirectUri, expiry), PIPE, 4) ==
      [nonce, redirectUri, expiry, SignState(mac, StateData(nonce, redirectUri, expiry))]
  {
    SignatureHasNoPipe(mac, StateData(nonce, redirectUri, expiry));
    SplitJoin([nonce, redirectUri, expiry, SignState(mac, StateData(nonce, redirectUri, expiry))], PIPE, 4);
  }

  lemma SplitNStep(s: Bytes, n: int)
    requires n > 1 && PIPE in s
    ensures var i := IndexOf(s, PIPE);
      var tail := SplitN(s[i + 1..], PIPE, n - 1);
      SplitN(s, PIPE, n) == [s[..i]] + tail && s == s[..i] + [PIPE] + s[i + 1..] &&
      (tail != [] ==> Join([s[..i]] + tail, PIPE) == s[..i] + [PIPE] + Join(tail, PIPE))
  {
    var i := IndexOf(s, PIPE);
    var tail := SplitN(s[i + 1..], PIPE, n - 1);
    assert SplitN(s, PIPE, n) == [s[..i]] + tail;
    assert s == s[..i] + [PIPE] + s[i + 1..];
    if tail != [] { JoinCons(s[..i], tail); }
  }

  lemma JoinCons(head: Bytes, tail: seq<Bytes>)
    requires tail != []
    ensures Join([head] + tail, PIPE) == head + [PIPE] + Join(tail, PIPE)
  {
    assert ([head] + tail)[1..] == tail;
  }

  /** Splitting in two leaves a later separator in the second part. */
  lemma SplitTwoLeavesRest(head: Bytes, rest: Bytes)
    requires PIPE in rest
    ensures |SplitN(head + [PIPE] + rest, PIPE, 2)| == 2 && PIPE in SplitN(head + [PIPE] + rest, PIPE, 2)[1]
  {
    var s := head + [PIPE] + rest;
    assert s[|head|] == PIPE;
    var i := IndexOf(s, PIPE);
    assert i <= |head| by {
      assert forall j :: 0 <= j < i ==> s[j] in s[..i];
    }
    SplitNStep(s, 2);
    var tail := s[i + 1..];
    assert SplitN(tail, PIPE, 1) == [tail];
    var k := IndexOf(rest, PIPE);
    assert tail[|head| - i + k] == s[|head| + 1 + k] == rest[k] == PIPE;
  }

  /** A pipe in the redirect URI ends up in the fourth part. */
  lemma SplitWithPipe(mac: Mac, nonce: Bytes, redirectUri: Bytes, expiry: Bytes)
    requires PIPE !in nonce && PIPE in redirectUri
    ensures var parts := SplitN(CookieText(mac, nonce, redirectUri, expiry), PIPE, 4);
      |parts| == 4 && PIPE in parts[3]
  {
    var sig := SignState(mac, StateData(nonce, redirectUri, expiry));
    var i := IndexOf(redirectUri, PIPE);
    var u1, u2 := redirectUri[..i], redirectUri[i + 1..];
    var rest := expiry + [PIPE] + sig;
    assert rest[|expiry|] == PIPE;
    var tail2 := u2 + [PIPE] + rest;
    var tail1 := u1 + [PIPE] + tail2;
    assert CookieText(mac, nonce, redirectUri, expiry) == nonce + [PIPE] + tail1 by {
      assert redirectUri == u1 + [PIPE] + u2;
      assert [nonce, redirectUri, expiry, sig][1..] == [redirectUri, expiry, sig];
      assert [redirectUri, expiry, sig][1..] == [expiry, sig];
      assert [expiry, sig][1..] == [sig];
      assert Join([expiry, sig], PIPE) == rest;
      assert Join([redirectUri, expiry, sig], PIPE) == redirectUri + [PIPE] + rest;
      assert redirectUri + [PIPE] + rest == tail1;
    }
    SplitHead(nonce, PIPE, tail1, 4);
    SplitHead(u1, PIPE, tail2, 3);
    SplitTwoLeavesRest(u2, rest);
  }

  /**
   * What Start packs, Callback recovers exactly (the expiry cut to the second) if and only if
   * the redirect URI contains no '|'; with a '|' the cookie is always refused.
   */
  lemma PackThenUnpack(mac: Mac, tt: TimeText, st: State)
    requires Faithful(tt)
    requires PIPE !in st.nonce
    ensures UnpackCookie(mac, tt, PackCookie(mac, tt, st)) ==
      if PIPE in st.redirectUri then None else Some(st.(expiresAt := Truncate(st.expiresAt)))
  {
    var expiry := tt.format(st.expiresAt);
    Base64.RoundTrip(Base64.URL, CookieText(mac, st.nonce, st.redirectUri, expiry));
    if PIPE in st.redirectUri {
      SplitWithPipe(mac, st.nonce, st.redirectUri, expiry);
      var parts := SplitN(CookieText(mac, st.nonce, st.redirectUri, expiry), PIPE, 4);
      SignatureHasNoPipe(mac, StateData(parts[0], parts[1], parts[2]));
    } else {
      SplitCookieText(mac, st.nonce, st.redirectUri, expiry);
    }
  }

  /**
   * A whole round trip: the callback gets back the nonce, which is the base64url of the random bytes, and the
   * return address, the first of redirect_uri, redirect_url and "/" that is given, until the second in which the
   * ten minutes end, if and only if the return address contains no '|'; otherwise it always reports an invalid state.
   */
  lemma CallbackAfterStart(mac: Mac, tt: TimeText, random: Bytes, redirectUri: Bytes, redirectUrl: Bytes,
                           started: int, now: int)
    requires Faithful(tt)
    ensures var cookie := PackCookie(mac, tt, StartState(random, redirectUri, redirectUrl, started));
      var target := if redirectUri != [] then redirectUri else if redirectUrl != [] then redirectUrl else [47];
      var expiry := Truncate(started + 600 * SECOND);
      CallbackState(mac, tt, cookie, now) ==
        if PIPE in target then Err(InvalidState)
        else if now > expiry then Err(ExpiredState)
        else Ok(State(UrlText(random), target, expiry))
  {
    TextHasNoPipe(random);
    PackThenUnpack(mac, tt, StartState(random, redirectUri, redirectUrl, started));
  }

  lemma {:induction false} SplitNRebuilds(s: Bytes, n: int)
    requires n > 0
    ensures 0 < |SplitN(s, PIPE, n)| <= n
    ensures Join(SplitN(s, PIPE, n), PIPE) == s
    ensures forall i :: 0 <= i < |SplitN(s, PIPE, n)| - 1 ==> PIPE !in SplitN(s, PIPE, n)[i]
    decreases |s|
  {
    if n > 1 && PIPE in s {
      SplitNStep(s, n);
      SplitNRebuilds(s[IndexOf(s, PIPE) + 1..], n - 1);
    }
  }

  /** The bytes that are signed. */
  function SignedText(nonce: Bytes, redirectUri: Bytes, expiry: Bytes): Bytes {
    nonce + [PIPE] + redirectUri + [PIPE] + expiry
  }

  lemma StateDataText(nonce: Bytes, redirectUri: Bytes, expiry: Bytes)
    ensures StateData(nonce, redirectUri, expiry) == SignedText(nonce, redirectUri, expiry)
  {
    assert [nonce, redirectUri, expiry][1..] == [redirectUri, expiry];
    assert [redirectUri, expiry][1..] == [expiry];
    assert Join([redirectUri, expiry], PIPE) == redirectUri + [PIPE] + expiry;
    assert nonce + [PIPE] + (redirectUri + [PIPE] + expiry) == SignedText(nonce, redirectUri, expiry);
  }

  lemma CookieTextIs(mac: Mac, nonce: Bytes, redirectUri: Bytes, expiry: Bytes)
    ensures var text := SignedText(nonce, redirectUri, expiry);
      CookieText(mac, nonce, redirectUri, expiry) == text + [PIPE] + UrlText(mac(text))
  {
    StateDataText(nonce, redirectUri, expiry);
    var sig := SignState(mac, StateData(nonce, redirectUri, expiry));
    assert [nonce, redirectUri, expiry, sig][1..] == [redirectUri, expiry, sig];
    assert [redirectUri, expiry, sig][1..] == [expiry, sig];
    assert [expiry, sig][1..] == [sig];
    assert Join([expiry, sig], PIPE) == expiry + [PIPE] + sig;
    assert Join([redirectUri, expiry, sig], PIPE) == redirectUri + [PIPE] + (expiry + [PIPE] + sig);
    assert nonce + [PIPE] + (redirectUri + [PIPE] + (expiry + [PIPE] + sig)) ==
      SignedText(nonce, redirectUri, expiry) + [PIPE] + sig;
  }

  /**
   * Callback accepts a cookie value exactly when it decodes to three '|'-free fields, the third of which reads as a
   * time, followed by the base64url of the MAC of these fields. Nothing unsigned is ever accepted.
   */
  lemma UnpackAcceptsExactlySigned(mac: Mac, tt: TimeText, cookie: string, st: State)
    ensures UnpackCookie(mac, tt, cookie) == Some(st) <==>
      exists expiry :: PIPE !in st.nonce && PIPE !in st.redirectUri && PIPE !in expiry &&
        tt.parse(expiry) == Some(st.expiresAt) &&
        var text := SignedText(st.nonce, st.redirectUri, expiry);
        Base64.Decode(Base64.URL, cookie) == Some(text + [PIPE] + UrlText(mac(text)))
  {
    var decoded := Base64.Decode(Base64.URL, cookie);
    if UnpackCookie(mac, tt, cookie) == Some(st) {
      var parts := SplitN(decoded.value, PIPE, 4);
      SplitNRebuilds(decoded.value, 4);
      assert parts == [parts[0], parts[1], parts[2], SignState(mac, StateData(parts[0], parts[1], parts[2]))];
      CookieTextIs(mac, parts[0], parts[1], parts[2]);
    }
    forall expiry | PIPE !in st.nonce && PIPE !in st.redirectUri && PIPE !in expiry &&
        tt.parse(expiry) == Some(st.expiresAt) &&
        (var text := SignedText(st.nonce, st.redirectUri, expiry); decoded == Some(text + [PIPE] + UrlText(mac(text))))
      ensures UnpackCookie(mac, tt, cookie) == Some(st)
    {
      CookieTextIs(mac, st.nonce, st.redirectUri, expiry);
      SplitCookieText(mac, st.nonce, st.redirectUri, expiry);
    }
  }

  lemma UrlTextInjective(a: Bytes, b: Bytes)
    requires UrlText(a) == UrlText(b)
    ensures a == b
  {
    var s, t := Base64.Encode(Base64.URL, a), Base64.Encode(Base64.URL, b);
    Base64IsAscii(a);
    Base64IsAscii(b);
    assert |s| == |t| by { assert |UrlText(a)| == |s| && |UrlText(b)| == |t|; }
    forall i | 0 <= i < |s| ensures s[i] == t[i] {
      assert UrlText(a)[i] == s[i] as int && UrlText(b)[i] == t[i] as int;
    }
    assert s == t;
    Base64.RoundTrip(Base64.URL, a);
    Base64.RoundTrip(Base64.URL, b);
  }

  /**
   * What was packed under one key is accepted under another exactly when the redirect URI has no '|' and both keys
   * give the same MAC of nonce, redirect URI and expiry.
   */
  lemma AcceptedUnderIff(mac: Mac, mac': Mac, tt: TimeText, st: State)
    requires Faithful(tt) && PIPE !in st.nonce
    ensures UnpackCookie(mac', tt, PackCookie(mac, tt, st)).Some? <==>
      PIPE !in st.redirectUri &&
      var text := st.nonce + [PIPE] + st.redirectUri + [PIPE] + tt.format(st.expiresAt); mac(text) == mac'(text)
  {
    var expiry := tt.format(st.expiresAt);
    var text := SignedText(st.nonce, st.redirectUri, expiry);
    Base64.RoundTrip(Base64.URL, CookieText(mac, st.nonce, st.redirectUri, expiry));
    if PIPE in st.redirectUri {
      SplitWithPipe(mac, st.nonce, st.redirectUri, expiry);
      var parts := SplitN(CookieText(mac, st.nonce, st.redirectUri, expiry), PIPE, 4);
      SignatureHasNoPipe(mac', StateData(parts[0], parts[1], parts[2]));
    } else {
      SplitCookieText(mac, st.nonce, st.redirectUri, expiry);
      StateDataText(st.nonce, st.redirectUri, expiry);
      if UrlText(mac(text)) == UrlText(mac'(text)) { UrlTextInjective(mac(text), mac'(text)); }
    }
  }
}
