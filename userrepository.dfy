/** The users table as the authentication code sees it: lookups by username and id, and adding a user. */
module UserRepository {
  import opened Wrappers
  import opened Domain
  import opened Linq
  import opened AppDbContext

  /** `Users.FirstOrDefaultAsync(u => u.Username == username)`: exact, case-sensitive comparison. */
  function GetByUsername(s: Store, username: string): (r: Option<User>)
    ensures r.Some? ==> r.value.username == username && exists k :: k in s.users && s.users[k] == r.value
    ensures WellKeyed(s) ==> (r.None? <==> forall k :: k in s.users ==> s.users[k].username != username)
  {
    var rows := Rows(s.users, s.nextUserId);
    var r := FirstOrDefault(rows, (u: User) => u.username == username);
    RowsCover(s.users, s.nextUserId);
    assert r.Some? ==> exists i :: 0 <= i < |rows| && rows[i] == r.value;
    r
  }

  /** With the unique index there is exactly one candidate, and the lookup finds it. */
  lemma GetByUsernameUnique(s: Store, k: int)
    requires ValidStore(s) && k in s.users
    ensures GetByUsername(s, s.users[k].username) == Some(s.users[k])
  {
    var r := GetByUsername(s, s.users[k].username);
    assert r.Some?;
    var j :| j in s.users && s.users[j] == r.value;
    assert j == k;
  }

  /** `Users.FindAsync(id)`: the row with that primary key, or null. */
  function GetById(s: Store, id: int): (r: Option<User>)
    ensures r.Some? <==> id in s.users
    ensures WellKeyed(s) && r.Some? ==> r.value.id == id
  {
    if id in s.users then Some(s.users[id]) else None
  }

  /** `Users.AnyAsync(u => u.Username == username)`. */
  function UsernameExists(s: Store, username: string): (b: bool)
    ensures WellKeyed(s) ==> (b <==> exists k :: k in s.users && s.users[k].username == username)
  {
    var rows := Rows(s.users, s.nextUserId);
    RowsCover(s.users, s.nextUserId);
    Any(rows, (u: User) => u.username == username)
  }

  /** The existence test and the lookup agree. */
  lemma UsernameExistsIffFound(s: Store, username: string)
    requires WellKeyed(s)
    ensures UsernameExists(s, username) <==> GetByUsername(s, username).Some?
  {
  }

  /** `Users.Add(user)` then returns the very same user; the insert waits for the save. */
  method Add(ctx: DbContext, user: User) returns (r: User)
    modifies ctx
    ensures r == user
    ensures ctx.committed == old(ctx.committed) && ctx.pending == old(ctx.pending) + [AddUser(user)]
  {
    ctx.Stage(AddUser(user));
    r := user;
  }

  method SaveChanges(ctx: DbContext) returns (r: Result<seq<int>, DbError>)
    requires ctx.Valid()
    modifies ctx
    ensures ctx.Valid()
    ensures Saved(old(ctx.committed), old(ctx.pending), ctx.committed, ctx.pending, r)
  {
    r := ctx.SaveChanges();
  }
}
