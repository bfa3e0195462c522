/** The refresh-token repository: derived and JPQL queries over the
    `user_tokens` table, and the two bulk updates. */
module UserTokenRepository {
  import opened Wrappers
  import opened Tables
  import opened TokenEntity

  /** `refreshTokenHash = :hash AND revoked = false` */
  function HashUnrevoked(hash: string): Token -> bool
  {
    (t: Token) => t.refreshTokenHash == hash && !t.revoked
  }

  /** `userId = :userId` */
  function OfUser(userId: int): Token -> bool
  {
    (t: Token) => t.userId == userId
  }

  /** `userId = :userId AND revoked = false` */
  function UnrevokedOf(userId: int): Token -> bool
  {
    (t: Token) => t.userId == userId && !t.revoked
  }

  /** `userId = :userId AND revoked = false AND expiresAt > :now` */
  function ActiveOf(userId: int, now: nat): Token -> bool
  {
    (t: Token) => t.userId == userId && !t.revoked && t.expiresAt > now
  }

  /** `NOT (expiresAt < :cutoffDate)`: the rows a delete keeps. */
  function NotBefore(cutoff: nat): Token -> bool
  {
    (t: Token) => !(t.expiresAt < cutoff)
  }

  /** `findByRefreshTokenHashAndRevokedFalse` */
  function FindByRefreshTokenHashAndRevokedFalse(rows: seq<Token>, hash: string): (r: Lookup<Token>)
    ensures r.Found? ==> r.row in rows && r.row.refreshTokenHash == hash && !r.row.revoked
    ensures r.Absent? <==> forall t :: t in rows ==> t.refreshTokenHash != hash || t.revoked
    ensures r.NonUnique? <==> TwoMatches(rows, HashUnrevoked(hash))
    ensures forall i :: OnlyMatch(rows, HashUnrevoked(hash), i) ==> r == Found(rows[i])
  {
    FindOne(rows, HashUnrevoked(hash))
  }

  /** `findAllByUserIdAndRevokedFalse` */
  function FindAllByUserIdAndRevokedFalse(rows: seq<Token>, userId: int): (r: seq<Token>)
    ensures forall t :: t in r <==> t in rows && t.userId == userId && !t.revoked
  {
    Filter(rows, UnrevokedOf(userId))
  }

  /** `revoked = false` */
  const NotRevoked: Token -> bool := (t: Token) => !t.revoked

  /** `findAllByUserId` */
  function FindAllByUserId(rows: seq<Token>, userId: int): (r: seq<Token>)
    ensures forall t :: t in r <==> t in rows && t.userId == userId
  {
    Filter(rows, OfUser(userId))
  }

  /** The user's unrevoked tokens are the unrevoked ones among all the
      user's tokens, in the same order. */
  lemma UnrevokedAmongAll(rows: seq<Token>, userId: int)
    ensures FindAllByUserIdAndRevokedFalse(rows, userId) == Filter(FindAllByUserId(rows, userId), NotRevoked)
  {
    FilterFilter(rows, OfUser(userId), NotRevoked);
    FilterCongruent(rows, Both(OfUser(userId), NotRevoked), UnrevokedOf(userId));
  }

  /** `findActiveTokensByUserId` */
  function FindActiveTokensByUserId(rows: seq<Token>, userId: int, now: nat): (r: seq<Token>)
    ensures forall t :: t in r <==> t in rows && t.userId == userId && !t.revoked && t.expiresAt > now
  {
    Filter(rows, ActiveOf(userId, now))
  }

  /** The query's `expiresAt > now` is stricter than `Token.isActive` by the
      one instant `expiresAt == now`. */
  lemma ActiveQueryVersusIsActive(rows: seq<Token>, userId: int, now: nat, t: Token)
    ensures t in FindActiveTokensByUserId(rows, userId, now) <==>
            t in rows && t.userId == userId && IsActive(t, now) && t.expiresAt != now
  {
  }

  /** `countActiveTokensByUserId`: counts the unrevoked rows, whatever their
      expiry. */
  function CountActiveTokensByUserId(rows: seq<Token>, userId: int): (n: nat)
    ensures n == |FindAllByUserIdAndRevokedFalse(rows, userId)|
  {
    CountIsFilterSize(rows, UnrevokedOf(userId));
    Count(rows, UnrevokedOf(userId))
  }

  /** The table after `revokeAllUserTokens`: the user's rows with
      `expiresAt < now` are revoked, the others are as they were. */
  function RevokeExpired(rows: seq<Token>, userId: int, now: nat): (r: seq<Token>)
  {
    seq(|rows|, i requires 0 <= i < |rows| =>
      if rows[i].userId == userId && rows[i].expiresAt < now then rows[i].(revoked := true) else rows[i])
  }

  /** `revokeAllUserTokens` never changes anybody's active tokens: the only
      rows it touches had already expired. */
  lemma RevokeKeepsActiveTokens(rows: seq<Token>, userId: int, now: nat, anyUser: int)
    ensures FindActiveTokensByUserId(RevokeExpired(rows, userId, now), anyUser, now) ==
            FindActiveTokensByUserId(rows, anyUser, now)
  {
    FilterPointwise(RevokeExpired(rows, userId, now), rows, ActiveOf(anyUser, now));
  }

  /** After `revokeAllUserTokens` no row of the user that expired before
      `now` is still unrevoked. */
  lemma RevokeCoversExpired(rows: seq<Token>, userId: int, now: nat)
    ensures forall t :: t in FindAllByUserIdAndRevokedFalse(RevokeExpired(rows, userId, now), userId) ==>
              t.expiresAt >= now
  {
    var r := RevokeExpired(rows, userId, now);
    forall t | t in FindAllByUserIdAndRevokedFalse(r, userId) ensures t.expiresAt >= now {
      var i :| 0 <= i < |r| && r[i] == t;
    }
  }

  /** The `user_tokens` table, changed in place by the bulk updates. */
  class UserTokenTable {
    var rows: seq<Token>

    constructor (initial: seq<Token>)
      ensures rows == initial
    {
      rows := initial;
    }

    /** `UPDATE Token SET revoked = true WHERE userId = :userId AND
        expiresAt < :now` */
    method RevokeAllUserTokens(userId: int, now: nat)
      modifies this
      ensures rows == RevokeExpired(old(rows), userId, now)
    {
      var i := 0;
      while i < |rows|
        invariant 0 <= i <= |rows| == |old(rows)|
        invariant forall j :: 0 <= j < i ==> rows[j] == RevokeExpired(old(rows), userId, now)[j]
        invariant forall j :: i <= j < |rows| ==> rows[j] == old(rows)[j]
      {
        if rows[i].userId == userId && rows[i].expiresAt < now {
          rows := rows[i := rows[i].(revoked := true)];
        }
        i := i + 1;
      }
    }

    /** `DELETE FROM Token WHERE expiresAt < :cutoffDate` */
    method DeleteExpiredTokens(cutoff: nat)
      modifies this
      ensures rows == Filter(old(rows), NotBefore(cutoff))
      ensures forall t :: t in rows <==> t in old(rows) && t.expiresAt >= cutoff
    {
      var table := rows;
      var keep := NotBefore(cutoff);
      var kept: seq<Token> := [];
      var i := 0;
      while i < |table|
        invariant 0 <= i <= |table|
        invariant kept == Filter(table[..i], keep)
      {
        assert table[..i + 1] == table[..i] + [table[i]];
        FilterAppend(table[..i], [table[i]], keep);
        assert Filter([table[i]], keep) == if keep(table[i]) then [table[i]] else [] by {
          assert [table[i]][1..] == [];
        }
        if keep(table[i]) {
          kept := kept + [table[i]];
        }
        i := i + 1;
      }
      assert table[..i] == table;
      rows := kept;
    }
  }
}
