/**
  The session-token state machine of one user record. The record keeps at
  most one refresh token: login stores a newly issued one, a refresh that
  presents exactly the stored token replaces it with a new one, and logout
  clears it. The password hasher (bcrypt) and the token signer (JWT) are
  collaborators whose workings are not modelled.
*/
module Session {
  import opened Common

  /**
    Password hashing: `hash(plain, salt)` is `bcrypt.hash(p, 10)` with the
    random salt it draws; `compare(plain, digest)` stands for the user
    document's `isPasswordCorrect(plain)` checking against the stored
    digest, which the user schema itself does not define.
  */
  datatype Hasher = Hasher(hash: (string, nat) -> string, compare: (string, string) -> bool)

  /** The one thing assumed of bcrypt: a password matches its own digest. */
  ghost predicate Sound(h: Hasher) {
    forall plain, salt :: h.compare(plain, h.hash(plain, salt))
  }

  /** The access and refresh tokens the signer issued for one login or refresh. */
  datatype TokenPair = TokenPair(access: string, refresh: string)

  /**
    The refresh token a request presents: the `refreshToken` cookie when it
    is truthy, otherwise the `Authorization` header with its first
    `"Bearer "` removed.
  */
  function PresentedToken(cookie: Option<string>, authorization: Option<string>): (t: Option<string>)
    ensures cookie.Some? && cookie.value != "" ==> t == cookie
    ensures (cookie.None? || cookie.value == "") && authorization.None? ==> t.None?
  {
    if cookie.Some? && cookie.value != "" then cookie
    else if authorization.Some? then Some(ReplaceFirst(authorization.value, "Bearer ", ""))
    else None
  }

  /** `pattern` occurs in `s` starting at index `i`. */
  predicate OccursAt(s: string, pattern: string, i: nat) {
    i + |pattern| <= |s| && s[i..i + |pattern|] == pattern
  }

  /** JavaScript's `s.replace(pattern, replacement)` for a string pattern: only the first occurrence is replaced. */
  function ReplaceFirst(s: string, pattern: string, replacement: string): string
    requires pattern != ""
    decreases |s|
  {
    if |s| < |pattern| then s
    else if s[..|pattern|] == pattern then replacement + s[|pattern|..]
    else [s[0]] + ReplaceFirst(s[1..], pattern, replacement)
  }

  /** A header written as `Bearer <token>` yields the token, whatever the token holds. */
  lemma BearerHeaderYieldsToken(token: string)
    ensures PresentedToken(None, Some("Bearer " + token)) == Some(token)
    ensures PresentedToken(Some(""), Some("Bearer " + token)) == Some(token)
  {
    var h := "Bearer " + token;
    assert |"Bearer "| == 7;
    assert h[..7] == "Bearer ";
    assert h[7..] == token;
    assert ReplaceFirst(h, "Bearer ", "") == token;
  }

  /** Without `"Bearer "` anywhere in the header the header is used as it is. */
  lemma {:induction false} ReplaceFirstAbsent(s: string, pattern: string, replacement: string)
    requires pattern != ""
    requires forall i: nat :: !OccursAt(s, pattern, i)
    ensures ReplaceFirst(s, pattern, replacement) == s
    decreases |s|
  {
    if |s| >= |pattern| {
      assert !OccursAt(s, pattern, 0);
      assert s[..|pattern|] == s[0..|pattern|];
      forall i: nat
        ensures !OccursAt(s[1..], pattern, i)
      {
        assert !OccursAt(s, pattern, i + 1);
      }
      ReplaceFirstAbsent(s[1..], pattern, replacement);
      assert s == [s[0]] + s[1..];
    }
  }

  /**
    A refresh is accepted when a token is presented (truthy) and it equals
    the stored one (`user.refreshToken !== refreshToken` rejects otherwise);
    a stored null never equals a presented string. Since the presented token
    must equal the stored one, at most one token is accepted in any state.
  */
  predicate Accepts(stored: Option<string>, presented: Option<string>) {
    presented.Some? && presented.value != "" && stored == presented
  }

  /** The events that change a user's stored refresh token. */
  datatype SessionEvent =
    | LoggedIn(issued: string)
    | Refreshed(presented: Option<string>, issued: string)
    | LoggedOut

  /** The stored refresh token after one event. */
  function Next(stored: Option<string>, e: SessionEvent): Option<string> {
    match e
    case LoggedIn(t) => Some(t)
    case Refreshed(p, t) => if Accepts(stored, p) then Some(t) else stored
    case LoggedOut => None
  }

  /** The stored refresh token after a sequence of events. */
  function Run(stored: Option<string>, events: seq<SessionEvent>): Option<string>
    decreases |events|
  {
    if events == [] then stored else Run(Next(stored, events[0]), events[1..])
  }

  /** The token an event would store, if it stores one. */
  function Issues(e: SessionEvent): Option<string> {
    match e
    case LoggedIn(t) => Some(t)
    case Refreshed(_, t) => Some(t)
    case LoggedOut => None
  }

  /**
    Once a token is no longer stored, no later event brings it back unless
    the signer issues that very token again: a replaced or cleared refresh
    token stays rejected.
  */
  lemma {:induction false} RevokedStaysRevoked(stored: Option<string>, events: seq<SessionEvent>, t: string)
    requires stored != Some(t)
    requires forall k | 0 <= k < |events| :: Issues(events[k]) != Some(t)
    ensures Run(stored, events) != Some(t)
    ensures !Accepts(Run(stored, events), Some(t))
    decreases |events|
  {
    if events != [] {
      assert Issues(events[0]) != Some(t);
      var next := Next(stored, events[0]);
      assert next != Some(t);
      forall k | 0 <= k < |events[1..]|
        ensures Issues(events[1..][k]) != Some(t)
      {
        assert events[1..][k] == events[k + 1];
      }
      RevokedStaysRevoked(next, events[1..], t);
    }
  }

  /**
    After a logout, every refresh fails until the next login or accepted
    refresh, whatever tokens are presented meanwhile.
  */
  lemma LogoutRevokesAll(stored: Option<string>, presented: seq<Option<string>>, issued: seq<string>)
    requires |presented| == |issued|
    ensures Run(stored, [LoggedOut] + RefreshAttempts(presented, issued)) == None
  {
    var events := [LoggedOut] + RefreshAttempts(presented, issued);
    assert events[1..] == RefreshAttempts(presented, issued);
    RefreshAttemptsKeepNone(presented, issued);
  }

  /** A series of refresh attempts, the k-th presenting `presented[k]`. */
  function RefreshAttempts(presented: seq<Option<string>>, issued: seq<string>): seq<SessionEvent>
    requires |presented| == |issued|
  {
    seq(|presented|, k requires 0 <= k < |presented| => Refreshed(presented[k], issued[k]))
  }

  /** No refresh attempt is accepted against an empty slot, so the slot stays empty. */
  lemma {:induction false} RefreshAttemptsKeepNone(presented: seq<Option<string>>, issued: seq<string>)
    requires |presented| == |issued|
    ensures Run(None, RefreshAttempts(presented, issued)) == None
    decreases |presented|
  {
    if presented != [] {
      var events := RefreshAttempts(presented, issued);
      assert events[0] == Refreshed(presented[0], issued[0]);
      assert Next(None, events[0]) == None;
      assert events[1..] == RefreshAttempts(presented[1..], issued[1..]);
      RefreshAttemptsKeepNone(presented[1..], issued[1..]);
    }
  }

  /**
    Rotation: after a refresh that presented the stored token `t` and got
    back a different token, presenting `t` again is rejected.
  */
  lemma RotationRejectsReplay(t: string, rotated: string)
    requires t != "" && rotated != t
    ensures Next(Some(t), Refreshed(Some(t), rotated)) == Some(rotated)
    ensures !Accepts(Next(Some(t), Refreshed(Some(t), rotated)), Some(t))
  {
  }
}
