/**
 * The relational rules of the database: the role discriminator of the users table, the unique
 * username index, foreign-key integrity, cascading deletes (photographer to portfolios,
 * packages and availabilities; portfolio to images) and restricted deletes (bookings and
 * shootings pin their client, photographer and package; packages pin their shooting category).
 */
module AppDbContext {
  import opened Wrappers
  import opened Domain
  import opened Linq

  /** The CLR types that share the users table. */
  datatype UserEntityType = UserEntity | PhotographerEntity | ClientEntity

  /** `HasDiscriminator("Role").HasValue<T>(...)`: the role value stored for each entity type. */
  function DiscriminatorOf(t: UserEntityType): UserRole
  {
    match t
    case UserEntity => Unspecified
    case PhotographerEntity => Photographer
    case ClientEntity => Client
  }

  /** The entity type a row is materialized as, read back from its discriminator. */
  function EntityTypeOf(r: UserRole): (t: UserEntityType)
    ensures DiscriminatorOf(t) == r
  {
    match r
    case Unspecified => UserEntity
    case Photographer => PhotographerEntity
    case Client => ClientEntity
  }

  lemma DiscriminatorRoundTrip(t: UserEntityType)
    ensures EntityTypeOf(DiscriminatorOf(t)) == t
  {
  }

  /** The tables, and the next value of each identity column the application inserts into. */
  datatype Store = Store(
    users: map<int, User>,
    portfolios: map<int, Portfolio>,
    images: map<int, PortfolioImage>,
    shootingCategories: set<int>,
    packages: map<int, Package>,
    availabilities: map<int, Availability>,
    bookingRequests: map<int, BookingRequest>,
    shootings: map<int, Shooting>,
    nextUserId: int,
    nextPortfolioId: int,
    nextImageId: int)

  /** Rows of `Set<Photographer>()`: users whose discriminator is `Photographer`. */
  predicate IsPhotographer(s: Store, id: int)
  {
    id in s.users && EntityTypeOf(s.users[id].role) == PhotographerEntity
  }

  predicate IsClient(s: Store, id: int)
  {
    id in s.users && EntityTypeOf(s.users[id].role) == ClientEntity
  }

  /** Every row sits under its own id, and identity values are positive and below the next one. */
  predicate WellKeyed(s: Store)
  {
    && UsersKeyed(s.users, s.nextUserId) && PortfoliosKeyed(s.portfolios, s.nextPortfolioId)
    && ImagesKeyed(s.images, s.nextImageId) && BookingSideKeyed(s)
  }

  predicate UsersKeyed(users: map<int, User>, next: int)
  {
    next >= 1 && forall k :: k in users ==> users[k].id == k && 0 < k < next
  }

  predicate PortfoliosKeyed(portfolios: map<int, Portfolio>, next: int)
  {
    next >= 1 && forall k :: k in portfolios ==> portfolios[k].id == k && 0 < k < next
  }

  predicate ImagesKeyed(images: map<int, PortfolioImage>, next: int)
  {
    next >= 1 && forall k :: k in images ==> images[k].id == k && 0 < k < next
  }

  /** The booking-side tables, which the application only reads and deletes from. */
  predicate BookingSideKeyed(s: Store)
  {
    && (forall k :: k in s.packages ==> s.packages[k].id == k)
    && (forall k :: k in s.availabilities ==> s.availabilities[k].id == k)
    && (forall k :: k in s.bookingRequests ==> s.bookingRequests[k].id == k)
    && (forall k :: k in s.shootings ==> s.shootings[k].id == k)
  }

  /** The unique index on `Username`. */
  predicate UniqueUsernames(users: map<int, User>)
  {
    forall a, b :: a in users && b in users && users[a].username == users[b].username ==> a == b
  }

  /** Every foreign key names an existing row (all user references point into the users table). */
  predicate ForeignKeysHold(s: Store)
  {
    && (forall k :: k in s.portfolios ==> s.portfolios[k].photographerId in s.users)
    && (forall k :: k in s.images ==> s.images[k].portfolioId in s.portfolios)
    && (forall k :: k in s.packages ==>
          s.packages[k].photographerId in s.users && s.packages[k].shootingCategoryId in s.shootingCategories)
    && (forall k :: k in s.availabilities ==> s.availabilities[k].photographerId in s.users)
    && (forall k :: k in s.bookingRequests ==>
          && s.bookingRequests[k].clientId in s.users
          && s.bookingRequests[k].photographerId in s.users
          && s.bookingRequests[k].packageId in s.packages)
    && (forall k :: k in s.shootings ==>
          && s.shootings[k].clientId in s.users
          && s.shootings[k].photographerId in s.users
          && s.shootings[k].packageId in s.packages)
  }

  /** What the database itself enforces on every commit. */
  predicate Constraints(s: Store)
  {
    UniqueUsernames(s.users) && ForeignKeysHold(s)
  }

  predicate ValidStore(s: Store)
  {
    WellKeyed(s) && Constraints(s)
  }

  /**
   * What the application keeps on top of the database's rules: a portfolio's owner is a
   * photographer (creation checks it, and no operation changes a user's role).
   */
  predicate OwnersArePhotographers(s: Store)
  {
    forall k :: k in s.portfolios ==> IsPhotographer(s, s.portfolios[k].photographerId)
  }

  /**
   * A table scan: the rows whose keys lie below the next identity value. The queries ask for
   * no order; this model reads the rows in ascending key order.
   */
  function Rows<T>(m: map<int, T>, next: int): (r: seq<T>)
    ensures |r| == |KeysInRange(m, 1, next)|
    ensures forall i :: 0 <= i < |r| ==> KeysInRange(m, 1, next)[i] in m && r[i] == m[KeysInRange(m, 1, next)[i]]
  {
    var ks := KeysInRange(m, 1, next);
    seq(|ks|, i requires 0 <= i < |ks| => m[ks[i]])
  }

  /** A scan of a table whose keys lie below the next identity value meets every row. */
  lemma RowsCover<T>(m: map<int, T>, next: int)
    ensures (forall k :: k in m ==> 0 < k < next) ==>
      forall k :: k in m ==> exists i :: 0 <= i < |Rows(m, next)| && Rows(m, next)[i] == m[k]
  {
    var ks := KeysInRange(m, 1, next);
    var r := Rows(m, next);
    forall k | k in m && 0 < k < next
      ensures exists i :: 0 <= i < |r| && r[i] == m[k]
    {
      assert k in ks;
      var i :| 0 <= i < |ks| && ks[i] == k;
      assert r[i] == m[k];
    }
  }

  // Cascading deletes

  /** Deleting a portfolio deletes its images (`OnDelete(Cascade)` on `PortfolioImage.PortfolioId`). */
  function RemovePortfolioCascade(s: Store, id: int): Store
  {
    s.(portfolios := s.portfolios - {id},
       images := map k | k in s.images && s.images[k].portfolioId != id :: s.images[k])
  }

  /**
   * Deleting a user row deletes the portfolios, packages and availabilities that reference it
   * (all `Cascade`), and the images of those portfolios; bookings and shootings are `Restrict`
   * and stay, so any that reference the user or one of its packages break integrity.
   */
  function RemoveUserCascade(s: Store, id: int): Store
  {
    var owned := set k | k in s.portfolios && s.portfolios[k].photographerId == id;
    s.(users := s.users - {id},
       portfolios := s.portfolios - owned,
       images := map k | k in s.images && s.images[k].portfolioId !in owned :: s.images[k],
       packages := map k | k in s.packages && s.packages[k].photographerId != id :: s.packages[k],
       availabilities := map k | k in s.availabilities && s.availabilities[k].photographerId != id :: s.availabilities[k])
  }

  // Staged changes and their commit

  /** A change staged on a `DbSet` (`Add`, `Update`, `Remove`), applied at `SaveChanges`. */
  datatype Change =
    | AddUser(user: User)
    | UpdateUser(user: User)
    | RemoveUser(userId: int)
    | AddPortfolio(portfolio: Portfolio)
    | UpdatePortfolio(portfolio: Portfolio)
    | RemovePortfolio(portfolioId: int)
    | AddImage(image: PortfolioImage)
    | RemoveImage(imageId: int)
    | RemovePackage(packageId: int)
    | RemoveShootingCategory(categoryId: int)

  /**
   * One change against the tables. An added row takes the next identity value (returned, as
   * EF writes it back into the entity); updating or removing a row that is gone affects no row,
   * which EF reports as a concurrency conflict.
   */
  function Apply(s: Store, c: Change): Result<(Store, seq<int>), DbError>
  {
    match c
    case AddUser(u) =>
      var k := s.nextUserId;
      Success((s.(users := s.users[k := u.(id := k)], nextUserId := k + 1), [k]))
    case UpdateUser(u) =>
      if u.id in s.users then Success((s.(users := s.users[u.id := u]), [])) else Failure(ConcurrencyConflict)
    case RemoveUser(id) =>
      if id in s.users then Success((RemoveUserCascade(s, id), [])) else Failure(ConcurrencyConflict)
    case AddPortfolio(p) =>
      var k := s.nextPortfolioId;
      Success((s.(portfolios := s.portfolios[k := p.(id := k)], nextPortfolioId := k + 1), [k]))
    case UpdatePortfolio(p) =>
      if p.id in s.portfolios then Success((s.(portfolios := s.portfolios[p.id := p]), []))
      else Failure(ConcurrencyConflict)
    case RemovePortfolio(id) =>
      if id in s.portfolios then Success((RemovePortfolioCascade(s, id), [])) else Failure(ConcurrencyConflict)
    case AddImage(img) =>
      var k := s.nextImageId;
      Success((s.(images := s.images[k := img.(id := k)], nextImageId := k + 1), [k]))
    case RemoveImage(id) =>
      if id in s.images then Success((s.(images := s.images - {id}), [])) else Failure(ConcurrencyConflict)
    case RemovePackage(id) =>
      if id in s.packages then Success((s.(packages := s.packages - {id}), [])) else Failure(ConcurrencyConflict)
    case RemoveShootingCategory(id) =>
      if id in s.shootingCategories then Success((s.(shootingCategories := s.shootingCategories - {id}), []))
      else Failure(ConcurrencyConflict)
  }

  /** The staged changes in order, collecting the generated keys. */
  function ApplyAll(s: Store, cs: seq<Change>): Result<(Store, seq<int>), DbError>
    decreases |cs|
  {
    if |cs| == 0 then Success((s, []))
    else
      match Apply(s, cs[0])
      case Failure(e) => Failure(e)
      case Success(first) =>
        match ApplyAll(first.0, cs[1..])
        case Failure(e) => Failure(e)
        case Success(rest) => Success((rest.0, first.1 + rest.1))
  }

  /**
   * `SaveChanges`: one transaction. Either every staged change takes effect and the database's
   * constraints hold afterwards, or nothing changes and the first reason is reported.
   */
  function Commit(s: Store, cs: seq<Change>): (r: Result<(Store, seq<int>), DbError>)
    ensures r.Success? ==> UniqueUsernames(r.value.0.users) && ForeignKeysHold(r.value.0)
  {
    match ApplyAll(s, cs)
    case Failure(e) => Failure(e)
    case Success(r) =>
      if !UniqueUsernames(r.0.users) then Failure(UniqueConstraintFailed)
      else if !ForeignKeysHold(r.0) then Failure(ForeignKeyConstraintFailed)
      else Success(r)
  }

  lemma RemoveUserWellKeyed(s: Store, id: int)
    requires WellKeyed(s)
    ensures WellKeyed(RemoveUserCascade(s, id))
  {
    var t := RemoveUserCascade(s, id);
    assert forall k :: k in t.images ==> k in s.images && t.images[k] == s.images[k];
    assert forall k :: k in t.packages ==> k in s.packages && t.packages[k] == s.packages[k];
    assert forall k :: k in t.availabilities ==> k in s.availabilities && t.availabilities[k] == s.availabilities[k];
  }

  lemma RemovePortfolioWellKeyed(s: Store, id: int)
    requires WellKeyed(s)
    ensures WellKeyed(RemovePortfolioCascade(s, id))
  {
    var t := RemovePortfolioCascade(s, id);
    assert forall k :: k in t.images ==> k in s.images && t.images[k] == s.images[k];
  }

  lemma ApplyWellKeyed(s: Store, c: Change)
    requires WellKeyed(s)
    ensures Apply(s, c).Success? ==> WellKeyed(Apply(s, c).value.0)
  {
    match c
    case RemoveUser(id) => RemoveUserWellKeyed(s, id);
    case RemovePortfolio(id) => RemovePortfolioWellKeyed(s, id);
    case _ =>
  }

  lemma {:induction false} ApplyAllWellKeyed(s: Store, cs: seq<Change>)
    requires WellKeyed(s)
    ensures ApplyAll(s, cs).Success? ==> WellKeyed(ApplyAll(s, cs).value.0)
    decreases |cs|
  {
    if |cs| > 0 {
      ApplyWellKeyed(s, cs[0]);
      if Apply(s, cs[0]).Success? {
        ApplyAllWellKeyed(Apply(s, cs[0]).value.0, cs[1..]);
      }
    }
  }

  /** A commit that succeeds leaves a valid database: the unique index and integrity hold. */
  lemma CommitValid(s: Store, cs: seq<Change>)
    requires ValidStore(s)
    ensures Commit(s, cs).Success? ==> ValidStore(Commit(s, cs).value.0)
  {
    ApplyAllWellKeyed(s, cs);
  }

  /** A single staged change, committed. */
  lemma CommitOne(s: Store, c: Change)
    ensures Commit(s, [c]) ==
      match Apply(s, c)
      case Failure(e) => Failure(e)
      case Success(r) =>
        if !UniqueUsernames(r.0.users) then Failure(UniqueConstraintFailed)
        else if !ForeignKeysHold(r.0) then Failure(ForeignKeyConstraintFailed)
        else Success(r)
  {
    assert [c][1..] == [];
    match Apply(s, c)
    case Failure(_) =>
    case Success(r) =>
      assert ApplyAll(r.0, []) == Success((r.0, []));
      assert r.1 + [] == r.1;
      assert ApplyAll(s, [c]) == Success(r);
  }

  /** Deleting a portfolio removes exactly it and its images; everything else stays. */
  lemma RemovePortfolioCascades(s: Store, id: int)
    requires ValidStore(s) && id in s.portfolios
    ensures Commit(s, [RemovePortfolio(id)]) == Success((RemovePortfolioCascade(s, id), []))
    ensures var t := RemovePortfolioCascade(s, id);
      && t.portfolios == s.portfolios - {id}
      && (forall k :: k in t.images ==> t.images[k].portfolioId != id)
      && (forall k :: k in s.images && s.images[k].portfolioId != id ==> k in t.images && t.images[k] == s.images[k])
      && t.users == s.users && t.packages == s.packages && t.bookingRequests == s.bookingRequests
  {
    CommitOne(s, RemovePortfolio(id));
  }

  /** No booking request or shooting references the user or one of the user's packages. */
  predicate Unpinned(s: Store, id: int)
  {
    && (forall k :: k in s.bookingRequests ==>
          && s.bookingRequests[k].clientId != id && s.bookingRequests[k].photographerId != id
          && (s.bookingRequests[k].packageId in s.packages ==> s.packages[s.bookingRequests[k].packageId].photographerId != id))
    && (forall k :: k in s.shootings ==>
          && s.shootings[k].clientId != id && s.shootings[k].photographerId != id
          && (s.shootings[k].packageId in s.packages ==> s.packages[s.shootings[k].packageId].photographerId != id))
  }

  /**
   * Deleting an unpinned user commits, and takes the user's portfolios, their images, and the
   * user's packages and availabilities with it; nothing else is removed.
   */
  lemma RemoveUserCascades(s: Store, id: int)
    requires ValidStore(s) && id in s.users && Unpinned(s, id)
    ensures Commit(s, [RemoveUser(id)]) == Success((RemoveUserCascade(s, id), []))
    ensures var t := RemoveUserCascade(s, id);
      && id !in t.users
      && (forall k :: k in t.portfolios ==> t.portfolios[k].photographerId != id)
      && (forall k :: k in t.images ==> t.images[k].portfolioId in t.portfolios)
      && (forall k :: k in t.packages ==> t.packages[k].photographerId != id)
      && (forall k :: k in t.availabilities ==> t.availabilities[k].photographerId != id)
      && (forall k :: k in s.portfolios && s.portfolios[k].photographerId != id ==> k in t.portfolios)
      && t.bookingRequests == s.bookingRequests && t.shootings == s.shootings
  {
    CommitOne(s, RemoveUser(id));
    var t := RemoveUserCascade(s, id);
    assert ForeignKeysHold(t);
  }

  /** A booking request or shooting that references the user, or one of its packages, refuses the delete. */
  lemma RemoveUserRestricted(s: Store, id: int)
    requires ValidStore(s) && id in s.users && !Unpinned(s, id)
    ensures Commit(s, [RemoveUser(id)]) == Failure(ForeignKeyConstraintFailed)
  {
    CommitOne(s, RemoveUser(id));
    var t := RemoveUserCascade(s, id);
    assert UniqueUsernames(t.users);
    if exists k :: k in s.bookingRequests && !(
          && s.bookingRequests[k].clientId != id && s.bookingRequests[k].photographerId != id
          && (s.bookingRequests[k].packageId in s.packages ==> s.packages[s.bookingRequests[k].packageId].photographerId != id)) {
      var k :| k in s.bookingRequests && !(
          && s.bookingRequests[k].clientId != id && s.bookingRequests[k].photographerId != id
          && (s.bookingRequests[k].packageId in s.packages ==> s.packages[s.bookingRequests[k].packageId].photographerId != id));
      assert k in t.bookingRequests;
    } else {
      var k :| k in s.shootings && !(
          && s.shootings[k].clientId != id && s.shootings[k].photographerId != id
          && (s.shootings[k].packageId in s.packages ==> s.packages[s.shootings[k].packageId].photographerId != id));
      assert k in t.shootings;
    }
  }

  /** A package that a booking request or shooting references cannot be deleted. */
  lemma RemovePackageRestricted(s: Store, id: int)
    requires ValidStore(s) && id in s.packages
    requires exists k :: k in s.bookingRequests && s.bookingRequests[k].packageId == id
    ensures Commit(s, [RemovePackage(id)]) == Failure(ForeignKeyConstraintFailed)
  {
    CommitOne(s, RemovePackage(id));
    var k :| k in s.bookingRequests && s.bookingRequests[k].packageId == id;
    assert s.(packages := s.packages - {id}).bookingRequests[k].packageId !in s.packages - {id};
  }

  /** A shooting category that a package references cannot be deleted. */
  lemma RemoveShootingCategoryRestricted(s: Store, id: int)
    requires ValidStore(s) && id in s.shootingCategories
    requires exists k :: k in s.packages && s.packages[k].shootingCategoryId == id
    ensures Commit(s, [RemoveShootingCategory(id)]) == Failure(ForeignKeyConstraintFailed)
  {
    CommitOne(s, RemoveShootingCategory(id));
    var k :| k in s.packages && s.packages[k].shootingCategoryId == id;
    assert s.packages[k].shootingCategoryId !in s.shootingCategories - {id};
  }

  /** A second user with a taken username never commits. */
  lemma AddDuplicateUsernameRefused(s: Store, u: User)
    requires ValidStore(s)
    requires exists k :: k in s.users && s.users[k].username == u.username
    ensures Commit(s, [AddUser(u)]) == Failure(UniqueConstraintFailed)
  {
    CommitOne(s, AddUser(u));
    var k :| k in s.users && s.users[k].username == u.username;
    var n := s.nextUserId;
    var t := s.users[n := u.(id := n)];
    assert k in t && n in t && t[k].username == t[n].username && k != n;
  }

  /**
   * The outcome of `SaveChanges` on tables `before` with changes `staged`: on success the
   * committed tables, no tracked changes and the generated keys; on failure nothing changes.
   */
  predicate Saved(before: Store, staged: seq<Change>, after: Store, afterStaged: seq<Change>, r: Result<seq<int>, DbError>)
  {
    match Commit(before, staged)
    case Success(res) => r == Success(res.1) && after == res.0 && afterStaged == []
    case Failure(e) => r == Failure(e) && after == before && afterStaged == staged
  }

  /** The single-change commits the services rely on, under a valid database. */

  lemma AddUserCommits(s: Store, u: User)
    requires ValidStore(s)
    requires forall k :: k in s.users ==> s.users[k].username != u.username
    ensures var k := s.nextUserId;
      Commit(s, [AddUser(u)]) == Success((s.(users := s.users[k := u.(id := k)], nextUserId := k + 1), [k]))
  {
    CommitOne(s, AddUser(u));
  }

  lemma UpdateUserCommits(s: Store, u: User)
    requires ValidStore(s) && u.id in s.users && s.users[u.id].username == u.username
    ensures Commit(s, [UpdateUser(u)]) == Success((s.(users := s.users[u.id := u]), []))
  {
    CommitOne(s, UpdateUser(u));
  }

  lemma AddPortfolioCommits(s: Store, p: Portfolio)
    requires ValidStore(s) && p.photographerId in s.users
    ensures var k := s.nextPortfolioId;
      Commit(s, [AddPortfolio(p)]) == Success((s.(portfolios := s.portfolios[k := p.(id := k)], nextPortfolioId := k + 1), [k]))
  {
    CommitOne(s, AddPortfolio(p));
  }

  lemma UpdatePortfolioCommits(s: Store, p: Portfolio)
    requires ValidStore(s) && p.id in s.portfolios && p.photographerId in s.users
    ensures Commit(s, [UpdatePortfolio(p)]) == Success((s.(portfolios := s.portfolios[p.id := p]), []))
  {
    CommitOne(s, UpdatePortfolio(p));
  }

  lemma AddImageCommits(s: Store, img: PortfolioImage)
    requires ValidStore(s) && img.portfolioId in s.portfolios
    ensures var k := s.nextImageId;
      Commit(s, [AddImage(img)]) == Success((s.(images := s.images[k := img.(id := k)], nextImageId := k + 1), [k]))
  {
    CommitOne(s, AddImage(img));
  }

  lemma RemoveImageCommits(s: Store, id: int)
    requires ValidStore(s) && id in s.images
    ensures Commit(s, [RemoveImage(id)]) == Success((s.(images := s.images - {id}), []))
  {
    CommitOne(s, RemoveImage(id));
  }

  /**
   * The EF context: the committed tables, and the changes staged on its sets since the last
   * `SaveChanges`. Queries read the committed tables.
   */
  class DbContext {
    var committed: Store
    var pending: seq<Change>

    predicate Valid()
      reads this
    {
      ValidStore(committed)
    }

    constructor (s: Store)
      requires ValidStore(s)
      ensures committed == s && pending == []
    {
      committed := s;
      pending := [];
    }

    /** `DbSet.Add`/`Update`/`Remove`: the change is tracked, nothing is written yet. */
    method Stage(c: Change)
      modifies this
      ensures committed == old(committed) && pending == old(pending) + [c]
    {
      pending := pending + [c];
    }

    /**
     * `SaveChangesAsync`: commits every tracked change in one transaction and returns the
     * generated keys, or leaves the database and the tracked changes as they were.
     */
    method SaveChanges() returns (r: Result<seq<int>, DbError>)
      requires Valid()
      modifies this
      ensures Valid()
      ensures Saved(old(committed), old(pending), committed, pending, r)
    {
      CommitValid(committed, pending);
      match Commit(committed, pending)
      case Success(res) =>
        committed, pending := res.0, [];
        r := Success(res.1);
      case Failure(e) =>
        r := Failure(e);
    }
  }
}
