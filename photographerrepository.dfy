/** `Set<Photographer>()`: the rows of the users table whose discriminator is `Photographer`. */
module PhotographerRepository {
  import opened Wrappers
  import opened Domain
  import opened Linq
  import opened AppDbContext

  predicate IsPhotographerRow(u: User)
  {
    EntityTypeOf(u.role) == PhotographerEntity
  }

  /** `Set<Photographer>().ToListAsync()`: every photographer-typed user, never a client. */
  function GetAll(s: Store): (r: seq<User>)
    ensures forall i :: 0 <= i < |r| ==> r[i].role == Photographer && exists k :: k in s.users && s.users[k] == r[i]
    ensures WellKeyed(s) ==> forall k :: IsPhotographer(s, k) ==> s.users[k] in r
    ensures WellKeyed(s) ==> forall i, j :: 0 <= i < j < |r| ==> r[i].id < r[j].id
  {
    PhotographerRowsStored(s);
    PhotographerRowsCover(s);
    Where(Rows(s.users, s.nextUserId), IsPhotographerRow)
  }

  /** Every row the photographer filter keeps is a stored photographer. */
  lemma PhotographerRowsStored(s: Store)
    ensures var r := Where(Rows(s.users, s.nextUserId), IsPhotographerRow);
      forall i :: 0 <= i < |r| ==> r[i].role == Photographer && exists k :: k in s.users && s.users[k] == r[i]
  {
    var rows := Rows(s.users, s.nextUserId);
    var r := Where(rows, IsPhotographerRow);
    forall i | 0 <= i < |r|
      ensures r[i].role == Photographer && exists k :: k in s.users && s.users[k] == r[i]
    {
      var j :| 0 <= j < |rows| && rows[j] == r[i];
      var ks := KeysInRange(s.users, 1, s.nextUserId);
      assert ks[j] in s.users && s.users[ks[j]] == r[i];
    }
  }

  /** On a well-keyed store the filter keeps every photographer, each once, in ascending id order. */
  lemma PhotographerRowsCover(s: Store)
    ensures var r := Where(Rows(s.users, s.nextUserId), IsPhotographerRow);
      && (WellKeyed(s) ==> forall k :: IsPhotographer(s, k) ==> s.users[k] in r)
      && (WellKeyed(s) ==> forall i, j :: 0 <= i < j < |r| ==> r[i].id < r[j].id)
  {
    if WellKeyed(s) {
      RowsCover(s.users, s.nextUserId);
      PhotographerRowsAscend(s);
    }
  }

  /** The photographer rows come in ascending id order. */
  lemma PhotographerRowsAscend(s: Store)
    requires WellKeyed(s)
    ensures IncreasingBy(Where(Rows(s.users, s.nextUserId), IsPhotographerRow), UserId)
  {
    UserRowsAscend(s);
    WhereIncreasing(Rows(s.users, s.nextUserId), IsPhotographerRow, UserId);
  }

  function UserId(u: User): int { u.id }

  /** The model's scan of the users table meets the users in ascending id order. */
  lemma UserRowsAscend(s: Store)
    requires WellKeyed(s)
    ensures IncreasingBy(Rows(s.users, s.nextUserId), UserId)
  {
    var ks := KeysInRange(s.users, 1, s.nextUserId);
    var rows := Rows(s.users, s.nextUserId);
    assert forall i :: 0 <= i < |rows| ==> UserId(rows[i]) == ks[i];
  }

  /** `FirstOrDefaultAsync(p => p.Id == id)` over the photographers. */
  function GetById(s: Store, id: int): (r: Option<User>)
    ensures r.Some? ==> r.value.id == id && r.value.role == Photographer
    ensures WellKeyed(s) ==> (r.Some? <==> IsPhotographer(s, id)) && (r.Some? ==> r.value == s.users[id])
  {
    var all := GetAll(s);
    var r := FirstOrDefault(all, (p: User) => p.id == id);
    assert r.Some? ==> exists i :: 0 <= i < |all| && all[i] == r.value;
    r
  }

  /** `GetByUserIdAsync` runs the same query `p.Id == userId` as `GetByIdAsync`. */
  function GetByUserId(s: Store, userId: int): (r: Option<User>)
    ensures r.Some? ==> r.value.id == userId && r.value.role == Photographer
    ensures WellKeyed(s) ==> (r.Some? <==> IsPhotographer(s, userId))
    ensures WellKeyed(s) && r.Some? ==> r.value == s.users[userId]
  {
    GetById(s, userId)
  }

  /** `AnyAsync(p => p.Id == id)` over the photographers. */
  function Exists(s: Store, id: int): (b: bool)
    ensures WellKeyed(s) ==> (b <==> IsPhotographer(s, id))
  {
    var all := GetAll(s);
    Any(all, (p: User) => p.id == id)
  }

  /** The existence test and the lookup agree. */
  lemma ExistsIffFound(s: Store, id: int)
    requires WellKeyed(s)
    ensures Exists(s, id) <==> GetById(s, id).Some?
  {
  }

  method Add(ctx: DbContext, photographer: User)
    modifies ctx
    ensures ctx.committed == old(ctx.committed) && ctx.pending == old(ctx.pending) + [AddUser(photographer)]
  {
    ctx.Stage(AddUser(photographer));
  }

  method Update(ctx: DbContext, photographer: User)
    modifies ctx
    ensures ctx.committed == old(ctx.committed) && ctx.pending == old(ctx.pending) + [UpdateUser(photographer)]
  {
    ctx.Stage(UpdateUser(photographer));
  }

  /** Removes the photographer (its dependents cascade at the save); a missing id stages nothing. */
  method Delete(ctx: DbContext, id: int)
    modifies ctx
    ensures ctx.committed == old(ctx.committed)
    ensures ctx.pending == old(ctx.pending) + (if GetById(old(ctx.committed), id).Some? then [RemoveUser(id)] else [])
  {
    var photographer := GetById(ctx.committed, id);
    if photographer.Some? {
      ctx.Stage(RemoveUser(photographer.value.id));
    }
  }

  method SaveChanges(ctx: DbContext) returns (r: Result<seq<int>, DbError>)
    requires ctx.Valid()
    modifies ctx
    ensures ctx.Valid()
    ensures Saved(old(ctx.committed), old(ctx.pending), ctx.committed, ctx.pending, r)
  {
    r := ctx.SaveChanges();
  }
}
