/** The users repository: derived and JPQL queries over the `users` table,
    and the two single-column updates. A query declared to return
    `Optional<Users>` yields a `Lookup`. */
module UsersRepository {
  import opened Wrappers
  import opened Tables
  import opened Enums
  import opened UserEntity

  function EmailIs(email: string): User -> bool
  {
    (u: User) => u.email == Some(email)
  }

  function PhoneIs(phone: string): User -> bool
  {
    (u: User) => u.phoneNumber == Some(phone)
  }

  /** `u.email = :username OR u.phoneNumber = :username` */
  function EmailOrPhoneIs(username: string): User -> bool
  {
    (u: User) => u.email == Some(username) || u.phoneNumber == Some(username)
  }

  function UsernameIs(username: string): User -> bool
  {
    (u: User) => u.username == Some(username)
  }

  function StatusIs(status: Status): User -> bool
  {
    (u: User) => u.status == status
  }

  function CreatedSince(fromDate: nat): User -> bool
  {
    (u: User) => u.createdAt >= fromDate
  }

  /** `findByEmail` */
  function FindByEmail(rows: seq<User>, email: string): (r: Lookup<User>)
    ensures r.Found? ==> r.row in rows && r.row.email == Some(email)
    ensures r.Absent? <==> forall u :: u in rows ==> u.email != Some(email)
    ensures r.NonUnique? <==> TwoMatches(rows, EmailIs(email))
    ensures forall i :: OnlyMatch(rows, EmailIs(email), i) ==> r == Found(rows[i])
  {
    FindOne(rows, EmailIs(email))
  }

  /** `findByPhoneNumber` */
  function FindByPhoneNumber(rows: seq<User>, phone: string): (r: Lookup<User>)
    ensures r.Found? ==> r.row in rows && r.row.phoneNumber == Some(phone)
    ensures r.Absent? <==> forall u :: u in rows ==> u.phoneNumber != Some(phone)
    ensures r.NonUnique? <==> TwoMatches(rows, PhoneIs(phone))
    ensures forall i :: OnlyMatch(rows, PhoneIs(phone), i) ==> r == Found(rows[i])
  {
    FindOne(rows, PhoneIs(phone))
  }

  /** `findByUsername`: matches the e-mail or the phone column; the
      `username` column is not consulted. */
  function FindByUsername(rows: seq<User>, username: string): (r: Lookup<User>)
    ensures r.Found? ==> r.row in rows && (r.row.email == Some(username) || r.row.phoneNumber == Some(username))
    ensures r.Absent? <==> forall u :: u in rows ==> u.email != Some(username) && u.phoneNumber != Some(username)
    ensures r.NonUnique? <==> TwoMatches(rows, EmailOrPhoneIs(username))
    ensures forall i :: OnlyMatch(rows, EmailOrPhoneIs(username), i) ==> r == Found(rows[i])
  {
    FindOne(rows, EmailOrPhoneIs(username))
  }

  /** `existsByUsername`: tests the `username` column. */
  predicate ExistsByUsername(rows: seq<User>, username: string)
  {
    Filter(rows, UsernameIs(username)) != []
  }

  predicate ExistsByEmail(rows: seq<User>, email: string)
  {
    Filter(rows, EmailIs(email)) != []
  }

  predicate ExistsByPhoneNumber(rows: seq<User>, phone: string)
  {
    Filter(rows, PhoneIs(phone)) != []
  }

  /** `existsByEmail` holds exactly when `findByEmail` finds something, one
      row or several. */
  lemma ExistsByEmailAgrees(rows: seq<User>, email: string)
    ensures ExistsByEmail(rows, email) <==> !FindByEmail(rows, email).Absent?
  {
  }

  /** `existsByUsername` and `findByUsername` look at different columns: a
      user registered under a username with no e-mail and no phone is found
      by the one and not by the other. */
  lemma ExistsButNotFound(u: User)
    requires u.username == Some("an") && u.email.None? && u.phoneNumber.None?
    ensures ExistsByUsername([u], "an") && FindByUsername([u], "an").Absent?
  {
    assert Filter([u], UsernameIs("an")) == [u];
  }

  /** `findByAllByStatus` */
  function FindByAllByStatus(rows: seq<User>, status: Status): (r: Lookup<User>)
    ensures r.Found? ==> r.row in rows && r.row.status == status
    ensures r.Absent? <==> forall u :: u in rows ==> u.status != status
    ensures r.NonUnique? <==> TwoMatches(rows, StatusIs(status))
    ensures forall i :: OnlyMatch(rows, StatusIs(status), i) ==> r == Found(rows[i])
  {
    FindOne(rows, StatusIs(status))
  }

  /** `findRecentUsers`: `createdAt >= :fromDate`, the bound included. */
  function FindRecentUsers(rows: seq<User>, fromDate: nat): (r: Lookup<User>)
    ensures r.Found? ==> r.row in rows && r.row.createdAt >= fromDate
    ensures r.Absent? <==> forall u :: u in rows ==> u.createdAt < fromDate
    ensures r.NonUnique? <==> TwoMatches(rows, CreatedSince(fromDate))
    ensures forall i :: OnlyMatch(rows, CreatedSince(fromDate), i) ==> r == Found(rows[i])
  {
    FindOne(rows, CreatedSince(fromDate))
  }

  /** The `uk_users_email` and `uk_users_phone` constraints: no two rows
      share a non-null e-mail or a non-null phone number. */
  predicate UniqueContacts(rows: seq<User>)
  {
    forall i, j :: 0 <= i < j < |rows| ==>
      (rows[i].email.Some? ==> rows[i].email != rows[j].email) &&
      (rows[i].phoneNumber.Some? ==> rows[i].phoneNumber != rows[j].phoneNumber)
  }

  /** Under the unique constraints `findByEmail` and `findByPhoneNumber`
      never see two rows. */
  lemma LookupsUnique(rows: seq<User>, email: string, phone: string)
    requires UniqueContacts(rows)
    ensures !FindByEmail(rows, email).NonUnique?
    ensures !FindByPhoneNumber(rows, phone).NonUnique?
  {
    FilterAtMostOne(rows, EmailIs(email));
    FilterAtMostOne(rows, PhoneIs(phone));
  }

  /** `findByUsername` can still see two rows: one user's e-mail may be
      another user's phone number. */
  lemma FindByUsernameCanBeNonUnique(a: User, b: User)
    requires a.email == Some("0912") && a.phoneNumber.None?
    requires b.phoneNumber == Some("0912") && b.email.None?
    ensures UniqueContacts([a, b]) && FindByUsername([a, b], "0912").NonUnique?
  {
    assert Filter([a, b], EmailOrPhoneIs("0912")) == [a, b] by {
      assert [a, b][1..] == [b];
      assert [b][1..] == [];
    }
  }

  /** The table after `UPDATE ... SET <field> WHERE u.id = :userId`: `update`
      applied to the row with that id, every other row as it was. */
  function UpdateWhereId(rows: seq<User>, userId: int, update: User -> User): (r: seq<User>)
  {
    seq(|rows|, i requires 0 <= i < |rows| => if rows[i].id == Some(userId) then update(rows[i]) else rows[i])
  }

  /** `SET u.status = :status` */
  function SetStatus(status: Status): User -> User
  {
    (u: User) => u.(status := status)
  }

  /** `SET u.lastLoginAt = :lastLoginAt` */
  function SetLastLogin(t: nat): User -> User
  {
    (u: User) => u.(lastLoginAt := t)
  }

  /** The `users` table, changed in place by the bulk updates. */
  class UsersTable {
    var rows: seq<User>

    constructor (initial: seq<User>)
      ensures rows == initial
    {
      rows := initial;
    }

    /** `UPDATE Users SET status = :status WHERE id = :userId` */
    method UpdateUserStatus(userId: int, status: Status)
      modifies this
      ensures rows == UpdateWhereId(old(rows), userId, SetStatus(status))
    {
      var i := 0;
      while i < |rows|
        invariant 0 <= i <= |rows| == |old(rows)|
        invariant forall j :: 0 <= j < i ==> rows[j] == UpdateWhereId(old(rows), userId, SetStatus(status))[j]
        invariant forall j :: i <= j < |rows| ==> rows[j] == old(rows)[j]
      {
        if rows[i].id == Some(userId) {
          rows := rows[i := rows[i].(status := status)];
        }
        i := i + 1;
      }
    }

    /** `UPDATE Users SET lastLoginAt = :lastLoginAt WHERE id = :userId` */
    method UpdateLastLoginAt(userId: int, lastLoginAt: nat)
      modifies this
      ensures rows == UpdateWhereId(old(rows), userId, SetLastLogin(lastLoginAt))
    {
      var i := 0;
      while i < |rows|
        invariant 0 <= i <= |rows| == |old(rows)|
        invariant forall j :: 0 <= j < i ==>
          rows[j] == UpdateWhereId(old(rows), userId, SetLastLogin(lastLoginAt))[j]
        invariant forall j :: i <= j < |rows| ==> rows[j] == old(rows)[j]
      {
        if rows[i].id == Some(userId) {
          rows := rows[i := rows[i].(lastLoginAt := lastLoginAt)];
        }
        i := i + 1;
      }
    }
  }

  /** A status update changes only the status column of the rows with that
      id: every other column of every row, and every row with another id,
      is unchanged, and the table keeps its size. */
  lemma StatusUpdateFrame(rows: seq<User>, userId: int, status: Status)
    ensures var r := UpdateWhereId(rows, userId, SetStatus(status));
      |r| == |rows| &&
      (forall i :: 0 <= i < |rows| ==> r[i].(status := rows[i].status) == rows[i]) &&
      (forall i :: 0 <= i < |rows| && rows[i].id == Some(userId) ==> r[i].status == status) &&
      (forall i :: 0 <= i < |rows| && rows[i].id != Some(userId) ==> r[i] == rows[i])
  {
  }

  /** A last-login update changes only `lastLoginAt` of the rows with that
      id. */
  lemma LastLoginUpdateFrame(rows: seq<User>, userId: int, t: nat)
    ensures var r := UpdateWhereId(rows, userId, SetLastLogin(t));
      |r| == |rows| &&
      (forall i :: 0 <= i < |rows| ==> r[i].(lastLoginAt := rows[i].lastLoginAt) == rows[i]) &&
      (forall i :: 0 <= i < |rows| && rows[i].id == Some(userId) ==> r[i].lastLoginAt == t) &&
      (forall i :: 0 <= i < |rows| && rows[i].id != Some(userId) ==> r[i] == rows[i])
  {
  }
}
