/** The two tables of the credential store (`users`, `password_updates`), the
    queries the domain operations run against them, and an in-memory `Store`
    whose fields the operations update in place. */
module Schema {

  datatype Option<+T> = None | Some(value: T)

  /** A row of `users`. `salt` and `password` are nullable; `password` holds
      the bcrypt hash. */
  datatype User = User(
    id: nat,
    username: string,
    email: string,
    salt: Option<string>,
    password: Option<string>,
    enabled: bool)

  /** A row of `password_updates`: a reset token owned by the user whose
      `id` is `userId`. */
  datatype PasswordUpdate = PasswordUpdate(id: nat, userId: nat, token: string)

  /** The SET clause of an `UPDATE users ... WHERE id = :id` statement. */
  datatype UserUpdate =
    | Disable                                     // SET enabled = 0
    | Reactivate(salt: string, password: string)  // SET enabled = 1, password = :password, salt = :salt
  {
    function Apply(u: User): (r: User)
      ensures r.id == u.id && r.username == u.username && r.email == u.email
      ensures r.enabled == this.Reactivate?
      ensures this.Reactivate? ==> r.salt == Some(this.salt) && r.password == Some(this.password)
      ensures this.Disable? ==> r.salt == u.salt && r.password == u.password
    {
      match this
      case Disable => u.(enabled := false)
      case Reactivate(s, h) => u.(enabled := true, salt := Some(s), password := Some(h))
    }
  }

  /** Outcome the driver reports for a statement or a transaction commit. */
  datatype Commit = Committed | CommitFailed(message: string)

  /** The ids present in a users table. */
  function UserIds(users: seq<User>): set<nat> {
    set u | u in users :: u.id
  }

  /** Index of the first row satisfying `p`, in table order: the row a
      `SELECT ... WHERE p` without ORDER BY hands back first. */
  function FirstWhere<T>(rows: seq<T>, p: T -> bool): (r: Option<nat>)
    ensures r.Some? ==> r.value < |rows| && p(rows[r.value])
    ensures r.Some? ==> forall j :: 0 <= j < r.value ==> !p(rows[j])
    ensures r.None? <==> forall j :: 0 <= j < |rows| ==> !p(rows[j])
  {
    if |rows| == 0 then None
    else if p(rows[0]) then Some(0)
    else match FirstWhere(rows[1..], p)
      case None => None
      case Some(k) => Some(k + 1)
  }

  /** The position of the row keyed by `id`, if there is one. */
  function UserIndex(users: seq<User>, id: nat): (r: Option<nat>)
    ensures r.Some? ==> r.value < |users| && users[r.value].id == id
    ensures r.None? <==> id !in UserIds(users)
  {
    var r := FirstWhere(users, (u: User) => u.id == id);
    assert id in UserIds(users) ==> r.Some? by {
      if id in UserIds(users) {
        var u :| u in users && u.id == id;
        var j :| 0 <= j < |users| && users[j] == u;
      }
    }
    r
  }

  /** `DELETE FROM password_updates WHERE user_id = :userId` on a table value. */
  function DeleteOwnedBy(rows: seq<PasswordUpdate>, userId: nat): (r: seq<PasswordUpdate>)
    ensures forall p :: p in r <==> p in rows && p.userId != userId
    ensures |r| <= |rows|
  {
    if |rows| == 0 then []
    else if rows[0].userId == userId then DeleteOwnedBy(rows[1..], userId)
    else [rows[0]] + DeleteOwnedBy(rows[1..], userId)
  }

  /** Both tables as a value, with their auto-increment counters. */
  datatype Db = Db(
    users: seq<User>,
    passwordUpdates: seq<PasswordUpdate>,
    nextUserId: nat,
    nextUpdateId: nat)
  {
    /** The table constraints: both tables are keyed by `id`, keys stay below
        the auto-increment counters, and every token row references an
        existing user (`password_updates.user_id -> users.id`). */
    predicate Valid() {
      && (forall i, j :: 0 <= i < j < |users| ==> users[i].id != users[j].id)
      && (forall i :: 0 <= i < |users| ==> users[i].id < nextUserId)
      && (forall p, q :: p in passwordUpdates && q in passwordUpdates && p != q ==> p.id != q.id)
      && (forall p :: p in passwordUpdates ==> p.id < nextUpdateId)
      && (forall p :: p in passwordUpdates ==> p.userId in UserIds(users))
    }

    /** `INSERT INTO users (username, email, password, salt)`; the column
        `enabled` is not written and is assumed to default to true. The new id is `nextUserId`. */
    function InsertUser(username: string, email: string, salt: Option<string>, password: Option<string>): (db: Db)
      ensures db.users == users + [User(nextUserId, username, email, salt, password, true)]
      ensures db.passwordUpdates == passwordUpdates && db.nextUpdateId == nextUpdateId
      ensures db.nextUserId > nextUserId
      ensures UserIds(db.users) == UserIds(users) + {nextUserId}
      ensures Valid() ==> db.Valid()
    {
      var u := User(nextUserId, username, email, salt, password, true);
      assert UserIds(users + [u]) == UserIds(users) + {u.id};
      this.(users := users + [u], nextUserId := nextUserId + 1)
    }

    /** `INSERT INTO password_updates (user_id, token)`; the new id is `nextUpdateId`. */
    function InsertPasswordUpdate(userId: nat, token: string): (db: Db)
      requires userId in UserIds(users)
      ensures db.passwordUpdates == passwordUpdates + [PasswordUpdate(nextUpdateId, userId, token)]
      ensures db.users == users && db.nextUserId == nextUserId
      ensures db.nextUpdateId > nextUpdateId
      ensures Valid() ==> db.Valid()
    {
      this.(passwordUpdates := passwordUpdates + [PasswordUpdate(nextUpdateId, userId, token)],
            nextUpdateId := nextUpdateId + 1)
    }

    /** `UPDATE users SET ... WHERE id = :id`: every row with that id is
        rewritten by `change`, every other row is kept. */
    function UpdateUsers(id: nat, change: UserUpdate): (db: Db)
      ensures |db.users| == |users|
      ensures forall i :: 0 <= i < |users| ==>
        db.users[i] == (if users[i].id == id then change.Apply(users[i]) else users[i])
      ensures db.passwordUpdates == passwordUpdates
      ensures db.nextUserId == nextUserId && db.nextUpdateId == nextUpdateId
      ensures UserIds(db.users) == UserIds(users)
      ensures Valid() ==> db.Valid()
    {
      var updated := seq(|users|, i requires 0 <= i < |users| =>
        if users[i].id == id then change.Apply(users[i]) else users[i]);
      SameIds(users, updated);
      this.(users := updated)
    }

    /** `DELETE FROM password_updates WHERE user_id = :userId`. */
    function DeletePasswordUpdatesOf(userId: nat): (db: Db)
      ensures forall p :: p in db.passwordUpdates <==> p in passwordUpdates && p.userId != userId
      ensures db.users == users
      ensures db.nextUserId == nextUserId && db.nextUpdateId == nextUpdateId
      ensures Valid() ==> db.Valid()
    {
      this.(passwordUpdates := DeleteOwnedBy(passwordUpdates, userId))
    }
  }

  /** Rewriting rows without touching their ids keeps the set of ids. */
  lemma SameIds(a: seq<User>, b: seq<User>)
    requires |a| == |b|
    requires forall i :: 0 <= i < |a| ==> a[i].id == b[i].id
    ensures UserIds(a) == UserIds(b)
  {
    forall id | id in UserIds(a) ensures id in UserIds(b) {
      var u :| u in a && u.id == id;
      var i :| 0 <= i < |a| && a[i] == u;
      assert b[i] in b;
    }
    forall id | id in UserIds(b) ensures id in UserIds(a) {
      var u :| u in b && u.id == id;
      var i :| 0 <= i < |b| && b[i] == u;
      assert a[i] in a;
    }
  }

  /** The credential store: both tables as fields that the domain operations
      update in place, one statement at a time. */
  class Store {
    var users: seq<User>
    var passwordUpdates: seq<PasswordUpdate>
    var nextUserId: nat
    var nextUpdateId: nat

    /** The current contents of both tables. */
    function Snapshot(): Db
      reads this
    {
      Db(users, passwordUpdates, nextUserId, nextUpdateId)
    }

    /** Empty tables; MySQL's auto-increment counters start at 1. */
    constructor ()
      ensures Snapshot().Valid()
      ensures users == [] && passwordUpdates == []
      ensures nextUserId == 1 && nextUpdateId == 1
    {
      users, passwordUpdates := [], [];
      nextUserId, nextUpdateId := 1, 1;
    }

    method InsertUser(username: string, email: string, salt: Option<string>, password: Option<string>)
      returns (id: nat)
      modifies this
      ensures id == old(nextUserId)
      ensures Snapshot() == old(Snapshot()).InsertUser(username, email, salt, password)
    {
      id := nextUserId;
      users := users + [User(id, username, email, salt, password, true)];
      nextUserId := nextUserId + 1;
    }

    method InsertPasswordUpdate(userId: nat, token: string)
      requires userId in UserIds(users)
      modifies this
      ensures Snapshot() == old(Snapshot()).InsertPasswordUpdate(userId, token)
    {
      passwordUpdates := passwordUpdates + [PasswordUpdate(nextUpdateId, userId, token)];
      nextUpdateId := nextUpdateId + 1;
    }

    method UpdateUsers(id: nat, change: UserUpdate)
      modifies this
      ensures Snapshot() == old(Snapshot()).UpdateUsers(id, change)
    {
      users := Snapshot().UpdateUsers(id, change).users;
    }

    method DeletePasswordUpdatesOf(userId: nat)
      modifies this
      ensures Snapshot() == old(Snapshot()).DeletePasswordUpdatesOf(userId)
    {
      passwordUpdates := DeleteOwnedBy(passwordUpdates, userId);
    }

    /** Rolls a transaction back: the tables return to what they held when it
        started. */
    method Rollback(saved: Db)
      modifies this
      ensures Snapshot() == saved
    {
      users, passwordUpdates := saved.users, saved.passwordUpdates;
      nextUserId, nextUpdateId := saved.nextUserId, saved.nextUpdateId;
    }
  }
}
