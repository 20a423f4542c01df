/**
 * The portfolio catalog: read-side projections to DTOs, and the ownership-checked create,
 * update, delete, add-image and delete-image operations.
 */
module PortfolioService {
  import opened Wrappers
  import opened Domain
  import opened Linq
  import opened AppDbContext
  import PortfolioRepository
  import PhotographerRepository

  /** The database's rules plus the application's: every portfolio belongs to a photographer. */
  predicate Catalog(s: Store)
  {
    ValidStore(s) && OwnersArePhotographers(s)
  }

  /** The `PortfolioDto` of a portfolio whose photographer is displayed as `photographerName`. */
  function ToDto(p: Portfolio, photographerName: string): PortfolioDto
  {
    PortfolioDto(p.id, p.title, p.description, p.category, p.createdDate, p.photographerId, photographerName)
  }

  /** `d` shows portfolio `p`: its fields copied, and its photographer's full name. */
  predicate Projects(s: Store, d: PortfolioDto, p: Portfolio)
  {
    && d.id == p.id && d.title == p.title && d.description == p.description
    && d.category == p.category && d.createdDate == p.createdDate && d.photographerId == p.photographerId
    && p.photographerId in s.users && d.photographerName == FullName(s.users[p.photographerId])
  }

  /** Each portfolio projected, with the photographer that `Include(p => p.Photographer)` loads. */
  function ProjectAll(s: Store, ps: seq<Portfolio>): (r: seq<PortfolioDto>)
    requires forall i :: 0 <= i < |ps| ==> ps[i].photographerId in s.users
    ensures |r| == |ps|
    ensures forall i :: 0 <= i < |ps| ==> Projects(s, r[i], ps[i])
  {
    seq(|ps|, i requires 0 <= i < |ps| => ToDto(ps[i], FullName(s.users[ps[i].photographerId])))
  }

  /**
   * Projecting rows read from the portfolios table: every DTO shows the stored portfolio with
   * its id, and every row read has its DTO.
   */
  lemma ProjectedRows(s: Store, ps: seq<Portfolio>)
    requires ValidStore(s)
    requires forall i :: 0 <= i < |ps| ==> ps[i].id in s.portfolios && s.portfolios[ps[i].id] == ps[i]
    ensures forall i :: 0 <= i < |ps| ==> ps[i].photographerId in s.users
    ensures forall i :: 0 <= i < |ps| ==>
      ProjectAll(s, ps)[i].id in s.portfolios && Projects(s, ProjectAll(s, ps)[i], s.portfolios[ProjectAll(s, ps)[i].id])
    ensures forall p :: p in ps ==> exists i :: 0 <= i < |ps| && ProjectAll(s, ps)[i].id == p.id
  {
    forall i | 0 <= i < |ps|
      ensures ps[i].photographerId in s.users
    {
      assert ps[i].id in s.portfolios;
    }
    var r := ProjectAll(s, ps);
    forall p | p in ps
      ensures exists i :: 0 <= i < |ps| && r[i].id == p.id
    {
      var i :| 0 <= i < |ps| && ps[i] == p;
      assert r[i].id == p.id;
    }
  }

  /** `GetAllPortfoliosAsync`: one DTO per portfolio, each showing its portfolio. */
  function GetAllPortfolios(s: Store): (r: seq<PortfolioDto>)
    requires ValidStore(s)
    ensures forall i :: 0 <= i < |r| ==> r[i].id in s.portfolios && Projects(s, r[i], s.portfolios[r[i].id])
    ensures forall k :: k in s.portfolios ==> exists i :: 0 <= i < |r| && r[i].id == k
    ensures forall i, j :: 0 <= i < j < |r| ==> r[i].id != r[j].id
  {
    var ps := PortfolioRepository.GetAll(s);
    ProjectedRows(s, ps);
    ProjectAll(s, ps)
  }

  /**
   * `GetPhotographerPortfoliosAsync`: exactly that photographer's portfolios, each once, newest
   * first.
   */
  function GetPhotographerPortfolios(s: Store, photographerId: int): (r: seq<PortfolioDto>)
    requires ValidStore(s)
    ensures forall i :: 0 <= i < |r| ==>
      r[i].photographerId == photographerId && r[i].id in s.portfolios && Projects(s, r[i], s.portfolios[r[i].id])
    ensures forall k :: k in s.portfolios && s.portfolios[k].photographerId == photographerId ==>
      exists i :: 0 <= i < |r| && r[i].id == k
    ensures forall i, j :: 0 <= i < j < |r| ==> r[i].createdDate >= r[j].createdDate
    ensures forall i, j :: 0 <= i < j < |r| ==> r[i].id != r[j].id
  {
    var ps := PortfolioRepository.GetByPhotographerId(s, photographerId);
    ProjectedRows(s, ps);
    ProjectAll(s, ps)
  }

  /** `GetPortfolioByIdAsync`: null for a missing id, otherwise the portfolio's DTO. */
  function GetPortfolioById(s: Store, id: int): (r: Option<PortfolioDto>)
    requires ValidStore(s)
    ensures r.None? <==> id !in s.portfolios
    ensures r.Some? ==> Projects(s, r.value, s.portfolios[id])
  {
    match PortfolioRepository.GetById(s, id)
    case None => None
    case Some(p) => Some(ToDto(p, FullName(s.users[p.photographerId])))
  }

  function ToImageDto(img: PortfolioImage): PortfolioImageDto
  {
    PortfolioImageDto(img.id, img.imageUrl, img.displayOrder)
  }

  function ImageOrder(img: PortfolioImage): int { img.displayOrder }

  function ImageDtoOrder(d: PortfolioImageDto): int { d.displayOrder }

  /** The images of the detail view: `OrderBy(i => i.DisplayOrder).Select(...)`. */
  function DetailImages(imgs: seq<PortfolioImage>): (r: seq<PortfolioImageDto>)
    ensures multiset(r) == multiset(Select(imgs, ToImageDto))
    ensures forall i, j :: 0 <= i < j < |r| ==> r[i].displayOrder <= r[j].displayOrder
  {
    var r := Select(OrderBy(imgs, ImageOrder), ToImageDto);
    SelectOrderBy(imgs, ImageOrder, ToImageDto, ImageDtoOrder);
    assert SortedBy(r, ImageDtoOrder);
    r
  }

  /**
   * `GetPortfolioWithImagesByIdAsync`: null for a missing id; otherwise the portfolio's fields
   * and its images, a permutation of them sorted by display order.
   */
  function GetPortfolioWithImagesById(s: Store, id: int): (r: Option<PortfolioWithImagesDto>)
    requires ValidStore(s)
    ensures r.None? <==> id !in s.portfolios
    ensures r.Some? ==>
      var p := s.portfolios[id];
      && r.value.id == p.id && r.value.title == p.title && r.value.description == p.description
      && r.value.category == p.category && r.value.createdDate == p.createdDate
      && r.value.photographerId == p.photographerId
      && r.value.photographerName == FullName(s.users[p.photographerId])
    ensures r.Some? ==> multiset(r.value.images) == multiset(Select(PortfolioRepository.ImagesOf(s, id), ToImageDto))
    ensures r.Some? ==> forall i, j :: 0 <= i < j < |r.value.images| ==> r.value.images[i].displayOrder <= r.value.images[j].displayOrder
    ensures r.Some? ==> forall i, j :: 0 <= i < j < |r.value.images| ==> r.value.images[i].id != r.value.images[j].id
  {
    match PortfolioRepository.GetByIdWithImages(s, id)
    case None => None
    case Some(found) =>
      var p := found.0;
      DetailImagesDistinct(found.1);
      Some(PortfolioWithImagesDto(p.id, p.title, p.description, p.category, p.createdDate, p.photographerId,
        FullName(s.users[p.photographerId]), DetailImages(found.1)))
  }

  function ImageDtoId(d: PortfolioImageDto): int { d.id }

  /** Images with distinct ids show as image DTOs with distinct ids. */
  lemma DetailImagesDistinct(imgs: seq<PortfolioImage>)
    requires forall i, j :: 0 <= i < j < |imgs| ==> imgs[i].id < imgs[j].id
    ensures var r := DetailImages(imgs); forall i, j :: 0 <= i < j < |r| ==> r[i].id != r[j].id
  {
    var projected := Select(imgs, ToImageDto);
    var r := DetailImages(imgs);
    assert forall i, j :: 0 <= i < j < |projected| ==> ImageDtoId(projected[i]) != ImageDtoId(projected[j]);
    PermutationKeepsDistinctIds(projected, r, ImageDtoId);
    assert forall i :: 0 <= i < |r| ==> ImageDtoId(r[i]) == r[i].id;
  }

  lemma DetailImagesMembers(imgs: seq<PortfolioImage>, d: PortfolioImageDto)
    ensures d in DetailImages(imgs) <==> exists i :: 0 <= i < |imgs| && ToImageDto(imgs[i]) == d
  {
    var projected := Select(imgs, ToImageDto);
    assert d in DetailImages(imgs) <==> d in multiset(DetailImages(imgs));
    assert d in projected <==> d in multiset(projected);
  }

  /** The detail view shows exactly the portfolio's images: each of them, and nothing else. */
  lemma DetailShowsItsImages(s: Store, id: int, d: PortfolioImageDto)
    requires ValidStore(s) && id in s.portfolios
    ensures d in GetPortfolioWithImagesById(s, id).value.images <==>
      d.id in s.images && s.images[d.id].portfolioId == id && d == ToImageDto(s.images[d.id])
  {
    var imgs := PortfolioRepository.ImagesOf(s, id);
    assert GetPortfolioWithImagesById(s, id).value.images == DetailImages(imgs);
    DetailImagesMembers(imgs, d);
    if d.id in s.images && s.images[d.id].portfolioId == id && d == ToImageDto(s.images[d.id]) {
      var i :| 0 <= i < |imgs| && imgs[i] == s.images[d.id];
    }
  }

  /** The same, for every image DTO at once. */
  lemma DetailShowsAllItsImages(s: Store, id: int)
    requires ValidStore(s) && id in s.portfolios
    ensures forall d :: d in GetPortfolioWithImagesById(s, id).value.images <==>
      d.id in s.images && s.images[d.id].portfolioId == id && d == ToImageDto(s.images[d.id])
  {
    forall d {
      DetailShowsItsImages(s, id, d);
    }
  }

  /** `OrderBy` is stable: images with the same display order keep the order they were read in. */
  lemma DetailImagesStable(s: Store, id: int, order: int)
    requires ValidStore(s) && id in s.portfolios
    ensures WithKey(GetPortfolioWithImagesById(s, id).value.images, ImageDtoOrder, order)
         == WithKey(Select(PortfolioRepository.ImagesOf(s, id), ToImageDto), ImageDtoOrder, order)
  {
    var imgs := PortfolioRepository.ImagesOf(s, id);
    SelectOrderBy(imgs, ImageOrder, ToImageDto, ImageDtoOrder);
    OrderByStable(Select(imgs, ToImageDto), ImageDtoOrder, order);
  }

  /** The changes an owner makes with `UpdatePortfolioAsync`; id, date and owner are kept. */
  function Edited(p: Portfolio, dto: UpdatePortfolioDto): (q: Portfolio)
    ensures q.id == p.id && q.createdDate == p.createdDate && q.photographerId == p.photographerId
    ensures q.title == dto.title && q.description == dto.description && q.category == dto.category
  {
    p.(category := dto.category, title := dto.title, description := dto.description)
  }

  const PhotographerNotFound := "Photographer not found"
  const PortfolioNotFound := "Portfolio not found"
  const CannotUpdate := "You don't have permission to update this portfolio"
  const CannotDelete := "You don't have permission to delete this portfolio"
  const CannotAddImage := "You don't have permission to add images to this portfolio"
  const CannotDeleteImage := "You don't have permission to delete this image"

  /**
   * `CreatePortfolioAsync`: refused unless the caller is a photographer; otherwise exactly one
   * portfolio is added, owned by the caller, and its DTO returned.
   */
  method CreatePortfolio(ctx: DbContext, photographerId: int, createDto: CreatePortfolioDto, now: Timestamp)
    returns (r: Result<PortfolioDto, Exception>)
    requires ctx.Valid() && OwnersArePhotographers(ctx.committed) && ctx.pending == []
    modifies ctx
    ensures ctx.Valid() && OwnersArePhotographers(ctx.committed) && ctx.pending == []
    ensures !IsPhotographer(old(ctx.committed), photographerId) ==>
      r == Failure(InvalidOperation(PhotographerNotFound)) && ctx.committed == old(ctx.committed)
    ensures IsPhotographer(old(ctx.committed), photographerId) ==>
      var s := old(ctx.committed);
      var k := s.nextPortfolioId;
      var p := Portfolio(k, createDto.title, createDto.description, createDto.category, now, photographerId);
      && ctx.committed == s.(portfolios := s.portfolios[k := p], nextPortfolioId := k + 1)
      && r == Success(ToDto(p, FullName(s.users[photographerId])))
  {
    if !PhotographerRepository.Exists(ctx.committed, photographerId) {
      return Failure(InvalidOperation(PhotographerNotFound));
    }
    var portfolio := Portfolio(0, createDto.title, createDto.description, createDto.category, now, photographerId);
    PortfolioRepository.Add(ctx, portfolio);
    assert ctx.pending == [AddPortfolio(portfolio)];
    AddPortfolioCommits(ctx.committed, portfolio);
    var saved := PortfolioRepository.SaveChanges(ctx);
    match saved
    case Failure(e) =>
      r := Failure(DbUpdate(e));
    case Success(keys) =>
      var stored := portfolio.(id := keys[0]);
      var photographer := PhotographerRepository.GetById(ctx.committed, photographerId);
      var name := if photographer.Some? then FullName(photographer.value) else "";
      r := Success(ToDto(stored, name));
  }

  /** Replacing a portfolio by one with the same owner keeps every owner a photographer. */
  lemma EditKeepsOwners(s: Store, p: Portfolio)
    requires OwnersArePhotographers(s) && p.id in s.portfolios && s.portfolios[p.id].photographerId == p.photographerId
    ensures OwnersArePhotographers(s.(portfolios := s.portfolios[p.id := p]))
  {
    var t := s.(portfolios := s.portfolios[p.id := p]);
    forall k | k in t.portfolios
      ensures IsPhotographer(t, t.portfolios[k].photographerId)
    {
      assert IsPhotographer(s, s.portfolios[k].photographerId);
    }
  }

  /**
   * `UpdatePortfolioAsync`: null for a missing portfolio, refused for anyone but its owner,
   * otherwise title, description and category replaced and nothing else changed.
   */
  method UpdatePortfolio(ctx: DbContext, portfolioId: int, photographerId: int, updateDto: UpdatePortfolioDto)
    returns (r: Result<Option<PortfolioDto>, Exception>)
    requires ctx.Valid() && OwnersArePhotographers(ctx.committed) && ctx.pending == []
    modifies ctx
    ensures ctx.Valid() && OwnersArePhotographers(ctx.committed) && ctx.pending == []
    ensures portfolioId !in old(ctx.committed).portfolios ==>
      r == Success(None) && ctx.committed == old(ctx.committed)
    ensures portfolioId in old(ctx.committed).portfolios && old(ctx.committed).portfolios[portfolioId].photographerId != photographerId ==>
      r == Failure(UnauthorizedAccess(CannotUpdate)) && ctx.committed == old(ctx.committed)
    ensures portfolioId in old(ctx.committed).portfolios && old(ctx.committed).portfolios[portfolioId].photographerId == photographerId ==>
      var s := old(ctx.committed);
      var p := Edited(s.portfolios[portfolioId], updateDto);
      && ctx.committed == s.(portfolios := s.portfolios[portfolioId := p])
      && r == Success(Some(ToDto(p, FullName(s.users[photographerId]))))
  {
    var portfolio := PortfolioRepository.GetById(ctx.committed, portfolioId);
    if portfolio.None? {
      return Success(None);
    }
    if portfolio.value.photographerId != photographerId {
      return Failure(UnauthorizedAccess(CannotUpdate));
    }
    var owner := ctx.committed.users[photographerId];
    var edited := Edited(portfolio.value, updateDto);
    PortfolioRepository.Update(ctx, edited);
    assert ctx.pending == [Change.UpdatePortfolio(edited)];
    UpdatePortfolioCommits(ctx.committed, edited);
    EditKeepsOwners(ctx.committed, edited);
    var saved := PortfolioRepository.SaveChanges(ctx);
    match saved
    case Failure(e) =>
      r := Failure(DbUpdate(e));
    case Success(_) =>
      r := Success(Some(ToDto(edited, FullName(owner))));
  }

  /**
   * `DeletePortfolioAsync`: false for a missing portfolio, refused for anyone but its owner,
   * otherwise the portfolio and its images are deleted and the result is true.
   */
  method DeletePortfolio(ctx: DbContext, portfolioId: int, photographerId: int) returns (r: Result<bool, Exception>)
    requires ctx.Valid() && OwnersArePhotographers(ctx.committed) && ctx.pending == []
    modifies ctx
    ensures ctx.Valid() && OwnersArePhotographers(ctx.committed) && ctx.pending == []
    ensures portfolioId !in old(ctx.committed).portfolios ==>
      r == Success(false) && ctx.committed == old(ctx.committed)
    ensures portfolioId in old(ctx.committed).portfolios && old(ctx.committed).portfolios[portfolioId].photographerId != photographerId ==>
      r == Failure(UnauthorizedAccess(CannotDelete)) && ctx.committed == old(ctx.committed)
    ensures portfolioId in old(ctx.committed).portfolios && old(ctx.committed).portfolios[portfolioId].photographerId == photographerId ==>
      && r == Success(true)
      && ctx.committed == RemovePortfolioCascade(old(ctx.committed), portfolioId)
      && portfolioId !in ctx.committed.portfolios
      && (forall k :: k in ctx.committed.images ==> ctx.committed.images[k].portfolioId != portfolioId)
  {
    var portfolio := PortfolioRepository.GetById(ctx.committed, portfolioId);
    if portfolio.None? {
      return Success(false);
    }
    if portfolio.value.photographerId != photographerId {
      return Failure(UnauthorizedAccess(CannotDelete));
    }
    PortfolioRepository.Delete(ctx, portfolioId);
    assert ctx.pending == [RemovePortfolio(portfolioId)];
    RemovePortfolioCascades(ctx.committed, portfolioId);
    var saved := PortfolioRepository.SaveChanges(ctx);
    match saved
    case Failure(e) =>
      r := Failure(DbUpdate(e));
    case Success(_) =>
      r := Success(true);
  }

  /**
   * `AddImageToPortfolioAsync`: a missing portfolio is an invalid operation (not false), a
   * non-owner is refused; otherwise exactly one image is added to that portfolio.
   */
  method AddImageToPortfolio(ctx: DbContext, portfolioId: int, photographerId: int, imageUrl: string, displayOrder: int)
    returns (r: Result<PortfolioImageDto, Exception>)
    requires ctx.Valid() && OwnersArePhotographers(ctx.committed) && ctx.pending == []
    modifies ctx
    ensures ctx.Valid() && OwnersArePhotographers(ctx.committed) && ctx.pending == []
    ensures portfolioId !in old(ctx.committed).portfolios ==>
      r == Failure(InvalidOperation(PortfolioNotFound)) && ctx.committed == old(ctx.committed)
    ensures portfolioId in old(ctx.committed).portfolios && old(ctx.committed).portfolios[portfolioId].photographerId != photographerId ==>
      r == Failure(UnauthorizedAccess(CannotAddImage)) && ctx.committed == old(ctx.committed)
    ensures portfolioId in old(ctx.committed).portfolios && old(ctx.committed).portfolios[portfolioId].photographerId == photographerId ==>
      var s := old(ctx.committed);
      var k := s.nextImageId;
      && ctx.committed == s.(images := s.images[k := PortfolioImage(k, imageUrl, displayOrder, portfolioId)], nextImageId := k + 1)
      && r == Success(PortfolioImageDto(k, imageUrl, displayOrder))
  {
    var portfolio := PortfolioRepository.GetById(ctx.committed, portfolioId);
    if portfolio.None? {
      return Failure(InvalidOperation(PortfolioNotFound));
    }
    if portfolio.value.photographerId != photographerId {
      return Failure(UnauthorizedAccess(CannotAddImage));
    }
    var image := PortfolioImage(0, imageUrl, displayOrder, portfolioId);
    PortfolioRepository.AddImage(ctx, image);
    assert ctx.pending == [Change.AddImage(image)];
    AddImageCommits(ctx.committed, image);
    var saved := PortfolioRepository.SaveChanges(ctx);
    match saved
    case Failure(e) =>
      r := Failure(DbUpdate(e));
    case Success(keys) =>
      var stored := image.(id := keys[0]);
      r := Success(PortfolioImageDto(stored.id, stored.imageUrl, stored.displayOrder));
  }

  /**
   * `DeleteImageFromPortfolioAsync`: false for a missing image; refused when its portfolio is
   * gone or belongs to someone else; otherwise only that image is deleted and the result is true.
   */
  method DeleteImageFromPortfolio(ctx: DbContext, imageId: int, photographerId: int) returns (r: Result<bool, Exception>)
    requires ctx.Valid() && OwnersArePhotographers(ctx.committed) && ctx.pending == []
    modifies ctx
    ensures ctx.Valid() && OwnersArePhotographers(ctx.committed) && ctx.pending == []
    ensures imageId !in old(ctx.committed).images ==>
      r == Success(false) && ctx.committed == old(ctx.committed)
    ensures imageId in old(ctx.committed).images ==>
      var s := old(ctx.committed);
      var parent := s.images[imageId].portfolioId;
      if parent !in s.portfolios || s.portfolios[parent].photographerId != photographerId then
        r == Failure(UnauthorizedAccess(CannotDeleteImage)) && ctx.committed == s
      else
        r == Success(true) && ctx.committed == s.(images := s.images - {imageId})
  {
    var image := PortfolioRepository.GetImageById(ctx.committed, imageId);
    if image.None? {
      return Success(false);
    }
    var portfolio := PortfolioRepository.GetById(ctx.committed, image.value.portfolioId);
    if portfolio.None? || portfolio.value.photographerId != photographerId {
      return Failure(UnauthorizedAccess(CannotDeleteImage));
    }
    PortfolioRepository.DeleteImage(ctx, imageId);
    assert ctx.pending == [RemoveImage(imageId)];
    RemoveImageCommits(ctx.committed, imageId);
    var saved := PortfolioRepository.SaveChanges(ctx);
    match saved
    case Failure(e) =>
      r := Failure(DbUpdate(e));
    case Success(_) =>
      r := Success(true);
  }

  // What the read side shows after each change

  /** A created portfolio reads back as the DTO that the create returned. */
  lemma CreatedPortfolioReadsBack(s: Store, photographerId: int, createDto: CreatePortfolioDto, now: Timestamp)
    requires ValidStore(s) && IsPhotographer(s, photographerId)
    ensures var k := s.nextPortfolioId;
      var p := Portfolio(k, createDto.title, createDto.description, createDto.category, now, photographerId);
      var t := s.(portfolios := s.portfolios[k := p], nextPortfolioId := k + 1);
      && ValidStore(t)
      && GetPortfolioById(t, k) == Some(ToDto(p, FullName(s.users[photographerId])))
  {
    var k := s.nextPortfolioId;
    var p := Portfolio(k, createDto.title, createDto.description, createDto.category, now, photographerId);
    AddPortfolioCommits(s, p.(id := 0));
    CommitValid(s, [AddPortfolio(p.(id := 0))]);
    assert p.(id := 0).(id := k) == p;
  }

  /** An updated portfolio reads back as the DTO that the update returned. */
  lemma UpdatedPortfolioReadsBack(s: Store, portfolioId: int, updateDto: UpdatePortfolioDto)
    requires ValidStore(s) && portfolioId in s.portfolios
    ensures var p := Edited(s.portfolios[portfolioId], updateDto);
      var t := s.(portfolios := s.portfolios[portfolioId := p]);
      && ValidStore(t)
      && GetPortfolioById(t, portfolioId) == Some(ToDto(p, FullName(s.users[p.photographerId])))
  {
    var p := Edited(s.portfolios[portfolioId], updateDto);
    UpdatePortfolioCommits(s, p);
    CommitValid(s, [Change.UpdatePortfolio(p)]);
  }

  /** A deleted portfolio is gone from both views. */
  lemma DeletedPortfolioGone(s: Store, portfolioId: int)
    requires ValidStore(s) && portfolioId in s.portfolios
    ensures var t := RemovePortfolioCascade(s, portfolioId);
      ValidStore(t) && GetPortfolioById(t, portfolioId).None? && GetPortfolioWithImagesById(t, portfolioId).None?
  {
    RemovePortfolioCascades(s, portfolioId);
    CommitValid(s, [RemovePortfolio(portfolioId)]);
  }

  /** The store once `image` is saved under the next image id. */
  function WithImage(s: Store, portfolioId: int, imageUrl: string, displayOrder: int): Store
  {
    s.(images := s.images[s.nextImageId := PortfolioImage(s.nextImageId, imageUrl, displayOrder, portfolioId)],
       nextImageId := s.nextImageId + 1)
  }

  /** Saving an image of an existing portfolio keeps the store valid. */
  lemma AddedImageValid(s: Store, portfolioId: int, imageUrl: string, displayOrder: int)
    requires ValidStore(s) && portfolioId in s.portfolios
    ensures ValidStore(WithImage(s, portfolioId, imageUrl, displayOrder))
  {
    var img := PortfolioImage(0, imageUrl, displayOrder, portfolioId);
    assert img.(id := s.nextImageId) == PortfolioImage(s.nextImageId, imageUrl, displayOrder, portfolioId);
    AddImageCommits(s, img);
    CommitValid(s, [Change.AddImage(img)]);
  }

  /** An added image shows in its portfolio's detail view. */
  lemma AddedImageShown(s: Store, portfolioId: int, imageUrl: string, displayOrder: int)
    requires ValidStore(s) && portfolioId in s.portfolios
    ensures var t := WithImage(s, portfolioId, imageUrl, displayOrder);
      && ValidStore(t)
      && PortfolioImageDto(s.nextImageId, imageUrl, displayOrder) in GetPortfolioWithImagesById(t, portfolioId).value.images
  {
    AddedImageValid(s, portfolioId, imageUrl, displayOrder);
    var t := WithImage(s, portfolioId, imageUrl, displayOrder);
    var d := PortfolioImageDto(s.nextImageId, imageUrl, displayOrder);
    assert d.id in t.images && t.images[d.id].portfolioId == portfolioId && d == ToImageDto(t.images[d.id]);
    DetailShowsItsImages(t, portfolioId, d);
  }

  /** A deleted image no longer shows in its portfolio's detail view. */
  lemma DeletedImageGone(s: Store, imageId: int)
    requires ValidStore(s) && imageId in s.images
    ensures var parent := s.images[imageId].portfolioId;
      var t := s.(images := s.images - {imageId});
      && ValidStore(t) && parent in t.portfolios
      && forall d :: d in GetPortfolioWithImagesById(t, parent).value.images ==> d.id != imageId
  {
    var parent := s.images[imageId].portfolioId;
    RemoveImageCommits(s, imageId);
    CommitValid(s, [RemoveImage(imageId)]);
    var t := s.(images := s.images - {imageId});
    forall d | d in GetPortfolioWithImagesById(t, parent).value.images
      ensures d.id != imageId
    {
      DetailShowsItsImages(t, parent, d);
    }
  }
}
