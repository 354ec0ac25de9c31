/** The domain entities of the authentication tables: the refresh token
    record and the User entity with its in-place updates. */
module Entities {
  import opened Common

  /** A refresh token row. UserId is an int in the source while User.Id is a
      Guid; both are modelled as the same abstract `nat` id. */
  datatype RefreshToken = RefreshToken(
    id: nat,
    token: string,
    expiryDate: Time,
    isRevoked: bool,
    createdAt: Time,
    userId: nat)

  /** A token may be used while it is not revoked and has not expired. */
  predicate IsUsable(t: RefreshToken, now: Time) {
    !t.isRevoked && t.expiryDate > now
  }

  /** List.Remove: drop the first element equal to `x`, if there is one. */
  function RemoveFirst<T(==)>(s: seq<T>, x: T): (r: seq<T>)
    ensures x in s ==> |r| == |s| - 1
    ensures x !in s ==> r == s
  {
    if s == [] then []
    else if s[0] == x then s[1..]
    else [s[0]] + RemoveFirst(s[1..], x)
  }

  /** The index of the first element equal to `x`. */
  function IndexOf<T(==)>(s: seq<T>, x: T): (k: nat)
    requires x in s
    ensures k < |s| && s[k] == x && x !in s[..k]
  {
    if s[0] == x then 0 else 1 + IndexOf(s[1..], x)
  }

  /** Removing the first occurrence keeps everything before it and
      everything after it, in order. */
  lemma {:induction false} RemoveFirstSplits<T>(s: seq<T>, x: T)
    requires x in s
    ensures RemoveFirst(s, x) == s[..IndexOf(s, x)] + s[IndexOf(s, x) + 1..]
  {
    if s[0] != x {
      RemoveFirstSplits(s[1..], x);
      assert s[1..][..IndexOf(s[1..], x)] == s[1..IndexOf(s, x)];
    }
  }

  /** Removing one occurrence takes exactly one copy of `x` out of the bag. */
  lemma {:induction false} RemoveFirstMultiset<T>(s: seq<T>, x: T)
    ensures multiset(RemoveFirst(s, x)) == multiset(s) - multiset{x}
  {
    if s != [] {
      RemoveFirstMultiset(s[1..], x);
      assert s == [s[0]] + s[1..];
    }
  }

  /** The User entity. Its setters are private: only the constructor and the
      methods below change it. */
  class User {
    var id: nat
    var username: string
    var email: string
    var passwordHash: string
    var createdAt: Time
    var updatedAt: Option<Time>
    var isActive: bool
    var refreshTokens: seq<RefreshToken>

    /** The public constructor, once its arguments are known not to be null;
        `id` is the fresh Guid and `now` the clock. */
    constructor (id: nat, username: string, email: string, passwordHash: string, now: Time)
      ensures this.id == id && this.username == username && this.email == email
      ensures this.passwordHash == passwordHash && createdAt == now
      ensures isActive && refreshTokens == [] && updatedAt.None?
    {
      this.id := id;
      this.username := username;
      this.email := email;
      this.passwordHash := passwordHash;
      createdAt := now;
      updatedAt := None;
      isActive := true;
      refreshTokens := [];
    }

    /** UpdatePassword; a null hash throws before anything is assigned
        (`ok` false). */
    method UpdatePassword(newPasswordHash: Option<string>, now: Time) returns (ok: bool)
      modifies this
      ensures ok <==> newPasswordHash.Some?
      ensures ok ==> passwordHash == newPasswordHash.value && updatedAt == Some(now)
      ensures !ok ==> passwordHash == old(passwordHash) && updatedAt == old(updatedAt)
      ensures id == old(id) && username == old(username) && email == old(email)
      ensures createdAt == old(createdAt) && isActive == old(isActive) && refreshTokens == old(refreshTokens)
    {
      if newPasswordHash.None? {
        return false;
      }
      passwordHash := newPasswordHash.value;
      updatedAt := Some(now);
      return true;
    }

    method AddRefreshToken(refreshToken: RefreshToken)
      modifies this
      ensures refreshTokens == old(refreshTokens) + [refreshToken]
      ensures id == old(id) && username == old(username) && email == old(email)
      ensures passwordHash == old(passwordHash) && createdAt == old(createdAt)
      ensures updatedAt == old(updatedAt) && isActive == old(isActive)
    {
      refreshTokens := refreshTokens + [refreshToken];
    }

    /** RemoveRefreshToken; `removed` is List.Remove's result, which the
        source discards. */
    method RemoveRefreshToken(refreshToken: RefreshToken) returns (removed: bool)
      modifies this
      ensures removed <==> refreshToken in old(refreshTokens)
      ensures refreshTokens == RemoveFirst(old(refreshTokens), refreshToken)
      ensures id == old(id) && username == old(username) && email == old(email)
      ensures passwordHash == old(passwordHash) && createdAt == old(createdAt)
      ensures updatedAt == old(updatedAt) && isActive == old(isActive)
    {
      removed := refreshToken in refreshTokens;
      refreshTokens := RemoveFirst(refreshTokens, refreshToken);
    }

    method Deactivate(now: Time)
      modifies this
      ensures !isActive && updatedAt == Some(now)
      ensures id == old(id) && username == old(username) && email == old(email)
      ensures passwordHash == old(passwordHash) && createdAt == old(createdAt)
      ensures refreshTokens == old(refreshTokens)
    {
      isActive := false;
      updatedAt := Some(now);
    }
  }

  /** `new User(username, email, passwordHash)`: a null argument throws
      ArgumentNullException (None); otherwise a fresh, active user. */
  method NewUser(id: nat, username: Option<string>, email: Option<string>, passwordHash: Option<string>, now: Time)
    returns (r: Option<User>)
    ensures r.None? <==> username.None? || email.None? || passwordHash.None?
    ensures r.Some? ==> (
      && fresh(r.value)
      && r.value.id == id && r.value.username == username.value && r.value.email == email.value
      && r.value.passwordHash == passwordHash.value && r.value.createdAt == now
      && r.value.isActive && r.value.refreshTokens == [] && r.value.updatedAt.None?)
  {
    if username.None? || email.None? || passwordHash.None? {
      return None;
    }
    var u := new User(id, username.value, email.value, passwordHash.value, now);
    return Some(u);
  }

  /** Deactivating twice leaves the user as inactive as once: a client-side
      check of the two contracts. */
  method DeactivateTwice(u: User, now: Time, later: Time)
    modifies u
    ensures !u.isActive && u.updatedAt == Some(later)
    ensures u.passwordHash == old(u.passwordHash) && u.refreshTokens == old(u.refreshTokens)
  {
    u.Deactivate(now);
    u.Deactivate(later);
  }
}
