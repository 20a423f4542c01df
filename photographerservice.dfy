/** Photographer profiles: listing, lookup, and the bio-only update keyed on the caller's id. */
module PhotographerService {
  import opened Wrappers
  import opened Domain
  import opened AppDbContext
  import PhotographerRepository

  function ToDto(p: User): PhotographerDto
  {
    PhotographerDto(p.id, p.username, p.firstName, p.lastName, p.bio, p.createdAt)
  }

  /** `d` shows photographer `p`: id, username, names, bio and creation time copied. */
  predicate Shows(d: PhotographerDto, p: User)
  {
    && d.id == p.id && d.username == p.username && d.firstName == p.firstName
    && d.lastName == p.lastName && d.bio == p.bio && d.createdAt == p.createdAt
  }

  /**
   * `GetAllPhotographersAsync`: exactly one DTO per photographer, each showing it, and none
   * for clients.
   */
  function GetAllPhotographers(s: Store): (r: seq<PhotographerDto>)
    requires WellKeyed(s)
    ensures forall i :: 0 <= i < |r| ==> IsPhotographer(s, r[i].id) && Shows(r[i], s.users[r[i].id])
    ensures forall k :: IsPhotographer(s, k) ==> exists i :: 0 <= i < |r| && r[i].id == k
    ensures forall i, j :: 0 <= i < j < |r| ==> r[i].id != r[j].id
  {
    ProfilesShowPhotographers(s);
    Profiles(PhotographerRepository.GetAll(s))
  }

  /** `Select(p => new PhotographerDto { ... })`: one DTO per user, in order. */
  function Profiles(users: seq<User>): (r: seq<PhotographerDto>)
    ensures |r| == |users| && forall i :: 0 <= i < |users| ==> r[i] == ToDto(users[i])
  {
    seq(|users|, i requires 0 <= i < |users| => ToDto(users[i]))
  }

  /** The profiles of the photographers the repository lists show exactly them, each once. */
  lemma ProfilesShowPhotographers(s: Store)
    requires WellKeyed(s)
    ensures var r := Profiles(PhotographerRepository.GetAll(s));
      && (forall i :: 0 <= i < |r| ==> IsPhotographer(s, r[i].id) && Shows(r[i], s.users[r[i].id]))
      && (forall k :: IsPhotographer(s, k) ==> exists i :: 0 <= i < |r| && r[i].id == k)
      && (forall i, j :: 0 <= i < j < |r| ==> r[i].id != r[j].id)
  {
    var all := PhotographerRepository.GetAll(s);
    var r := Profiles(all);
    forall i | 0 <= i < |r|
      ensures IsPhotographer(s, r[i].id) && Shows(r[i], s.users[r[i].id])
    {
      var k :| k in s.users && s.users[k] == all[i];
    }
    forall k | IsPhotographer(s, k)
      ensures exists i :: 0 <= i < |r| && r[i].id == k
    {
      var i :| 0 <= i < |all| && all[i] == s.users[k];
      assert r[i].id == k;
    }
    forall i, j | 0 <= i < j < |r|
      ensures r[i].id != r[j].id
    {
      assert r[i].id == all[i].id && r[j].id == all[j].id;
    }
  }

  /** `GetPhotographerByIdAsync`: null unless a photographer has that id. */
  function GetPhotographerById(s: Store, id: int): (r: Option<PhotographerDto>)
    requires WellKeyed(s)
    ensures r.None? <==> !IsPhotographer(s, id)
    ensures r.Some? ==> Shows(r.value, s.users[id])
  {
    match PhotographerRepository.GetById(s, id)
    case None => None
    case Some(p) => Some(ToDto(p))
  }

  /** A bio edit keeps every user's role, so every portfolio still belongs to a photographer. */
  lemma BioEditKeepsOwners(s: Store, userId: int, bio: Option<string>)
    requires OwnersArePhotographers(s) && userId in s.users
    ensures OwnersArePhotographers(s.(users := s.users[userId := s.users[userId].(bio := bio)]))
  {
    var t := s.(users := s.users[userId := s.users[userId].(bio := bio)]);
    forall k | k in t.portfolios
      ensures IsPhotographer(t, t.portfolios[k].photographerId)
    {
      assert IsPhotographer(s, s.portfolios[k].photographerId);
    }
  }

  /**
   * `UpdatePhotographerAsync`: null, with nothing written, unless the caller is a photographer;
   * otherwise only the bio changes, in the table and in the returned DTO.
   */
  method UpdatePhotographer(ctx: DbContext, userId: int, updateDto: UpdatePhotographerDto)
    returns (r: Result<Option<PhotographerDto>, Exception>)
    requires ctx.Valid() && OwnersArePhotographers(ctx.committed) && ctx.pending == []
    modifies ctx
    ensures ctx.Valid() && OwnersArePhotographers(ctx.committed) && ctx.pending == []
    ensures !IsPhotographer(old(ctx.committed), userId) ==>
      r == Success(None) && ctx.committed == old(ctx.committed)
    ensures IsPhotographer(old(ctx.committed), userId) ==>
      var s := old(ctx.committed);
      var p := s.users[userId].(bio := updateDto.bio);
      && ctx.committed == s.(users := s.users[userId := p])
      && r == Success(Some(ToDto(p)))
  {
    var photographer := PhotographerRepository.GetByUserId(ctx.committed, userId);
    if photographer.None? {
      return Success(None);
    }
    var updated := photographer.value.(bio := updateDto.bio);
    PhotographerRepository.Update(ctx, updated);
    assert ctx.pending == [UpdateUser(updated)];
    UpdateUserCommits(ctx.committed, updated);
    BioEditKeepsOwners(ctx.committed, userId, updateDto.bio);
    var saved := PhotographerRepository.SaveChanges(ctx);
    match saved
    case Failure(e) =>
      r := Failure(DbUpdate(e));
    case Success(_) =>
      r := Success(Some(ToDto(updated)));
  }

  /** The bio update reads back: the profile shows the new bio and every other field as before. */
  lemma UpdatedBioReadsBack(s: Store, userId: int, updateDto: UpdatePhotographerDto)
    requires ValidStore(s) && IsPhotographer(s, userId)
    ensures var t := s.(users := s.users[userId := s.users[userId].(bio := updateDto.bio)]);
      && GetPhotographerById(t, userId).Some?
      && GetPhotographerById(t, userId).value.bio == updateDto.bio
      && GetPhotographerById(t, userId).value == GetPhotographerById(s, userId).value.(bio := updateDto.bio)
  {
  }
}
