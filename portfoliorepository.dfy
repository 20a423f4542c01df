/**
 * The portfolios and images tables: filter and sort queries, existence, and the staged
 * add, update and delete operations that take effect at the save.
 */
module PortfolioRepository {
  import opened Wrappers
  import opened Domain
  import opened Linq
  import opened AppDbContext

  /** `Portfolios.ToListAsync()`: every portfolio, unfiltered. */
  function GetAll(s: Store): (r: seq<Portfolio>)
    requires WellKeyed(s)
    ensures forall i :: 0 <= i < |r| ==> r[i].id in s.portfolios && s.portfolios[r[i].id] == r[i]
    ensures forall i, j :: 0 <= i < j < |r| ==> r[i].id < r[j].id
    ensures forall k :: k in s.portfolios ==> s.portfolios[k] in r
  {
    RowsCover(s.portfolios, s.nextPortfolioId);
    Rows(s.portfolios, s.nextPortfolioId)
  }

  /** The newest-first order of `OrderByDescending(p => p.CreatedDate)`. */
  function NewestFirst(p: Portfolio): int
  {
    0 - p.createdDate
  }

  function PortfolioId(p: Portfolio): int { p.id }

  /** `Where(p => p.PhotographerId == photographerId)`: that photographer's portfolios, each once. */
  function OwnedBy(s: Store, photographerId: int): (r: seq<Portfolio>)
    requires WellKeyed(s)
    ensures forall i :: 0 <= i < |r| ==> r[i].photographerId == photographerId && r[i].id in s.portfolios && s.portfolios[r[i].id] == r[i]
    ensures forall k :: k in s.portfolios && s.portfolios[k].photographerId == photographerId ==> s.portfolios[k] in r
    ensures forall i, j :: 0 <= i < j < |r| ==> r[i].id < r[j].id
  {
    var all := GetAll(s);
    var owned := (p: Portfolio) => p.photographerId == photographerId;
    var r := Where(all, owned);
    assert forall i :: 0 <= i < |r| ==> r[i] in all;
    assert IncreasingBy(all, PortfolioId);
    WhereIncreasing(all, owned, PortfolioId);
    r
  }

  /**
   * `Where(p => p.PhotographerId == photographerId).OrderByDescending(p => p.CreatedDate)`:
   * exactly that photographer's portfolios, newest first.
   */
  function GetByPhotographerId(s: Store, photographerId: int): (r: seq<Portfolio>)
    requires WellKeyed(s)
    ensures forall i :: 0 <= i < |r| ==> r[i].photographerId == photographerId && r[i].id in s.portfolios && s.portfolios[r[i].id] == r[i]
    ensures forall k :: k in s.portfolios && s.portfolios[k].photographerId == photographerId ==> s.portfolios[k] in r
    ensures forall i, j :: 0 <= i < j < |r| ==> r[i].createdDate >= r[j].createdDate
    ensures forall i, j :: 0 <= i < j < |r| ==> r[i].id != r[j].id
  {
    OwnedNewestFirst(s, photographerId);
    SortingKeepsIdsDistinct(OwnedBy(s, photographerId), NewestFirst);
    OrderBy(OwnedBy(s, photographerId), NewestFirst)
  }

  /** Sorting a photographer's portfolios newest first keeps exactly them. */
  lemma OwnedNewestFirst(s: Store, photographerId: int)
    requires WellKeyed(s)
    ensures var r := OrderBy(OwnedBy(s, photographerId), NewestFirst);
      && (forall i :: 0 <= i < |r| ==>
            r[i].photographerId == photographerId && r[i].id in s.portfolios && s.portfolios[r[i].id] == r[i])
      && (forall k :: k in s.portfolios && s.portfolios[k].photographerId == photographerId ==> s.portfolios[k] in r)
      && (forall i, j :: 0 <= i < j < |r| ==> r[i].createdDate >= r[j].createdDate)
  {
    var owned := OwnedBy(s, photographerId);
    var r := OrderBy(owned, NewestFirst);
    forall i | 0 <= i < |r|
      ensures r[i].photographerId == photographerId && r[i].id in s.portfolios && s.portfolios[r[i].id] == r[i]
    {
      OrderByMembers(owned, NewestFirst, r[i]);
      var j :| 0 <= j < |owned| && owned[j] == r[i];
    }
    forall k | k in s.portfolios && s.portfolios[k].photographerId == photographerId
      ensures s.portfolios[k] in r
    {
      OrderByMembers(owned, NewestFirst, s.portfolios[k]);
    }
    forall i, j | 0 <= i < j < |r|
      ensures r[i].createdDate >= r[j].createdDate
    {
      assert NewestFirst(r[i]) <= NewestFirst(r[j]);
    }
  }

  /** Sorting portfolios with distinct ids neither repeats nor merges one. */
  lemma SortingKeepsIdsDistinct(ps: seq<Portfolio>, key: Portfolio -> int)
    requires forall i, j :: 0 <= i < j < |ps| ==> ps[i].id < ps[j].id
    ensures var r := OrderBy(ps, key); forall i, j :: 0 <= i < j < |r| ==> r[i].id != r[j].id
  {
    var r := OrderBy(ps, key);
    assert forall i, j :: 0 <= i < j < |ps| ==> PortfolioId(ps[i]) != PortfolioId(ps[j]);
    PermutationKeepsDistinctIds(ps, r, PortfolioId);
    assert forall i :: 0 <= i < |r| ==> PortfolioId(r[i]) == r[i].id;
  }

  /** `FirstOrDefaultAsync(p => p.Id == id)`: the portfolio with that id, or null. */
  function GetById(s: Store, id: int): (r: Option<Portfolio>)
    requires WellKeyed(s)
    ensures r.Some? <==> id in s.portfolios
    ensures r.Some? ==> r.value == s.portfolios[id] && r.value.id == id
  {
    var all := GetAll(s);
    var r := FirstOrDefault(all, (p: Portfolio) => p.id == id);
    assert r.Some? ==> exists i :: 0 <= i < |all| && all[i] == r.value;
    assert id in s.portfolios ==> s.portfolios[id] in all;
    r
  }

  /** `AnyAsync(p => p.Id == id)`. */
  function Exists(s: Store, id: int): (b: bool)
    requires WellKeyed(s)
    ensures b <==> id in s.portfolios
  {
    var all := GetAll(s);
    assert id in s.portfolios ==> s.portfolios[id] in all;
    Any(all, (p: Portfolio) => p.id == id)
  }

  function ImageId(img: PortfolioImage): int { img.id }

  /** The images of a portfolio, each once, in the order a scan of the images table meets them. */
  function ImagesOf(s: Store, portfolioId: int): (r: seq<PortfolioImage>)
    requires WellKeyed(s)
    ensures forall i :: 0 <= i < |r| ==> r[i].portfolioId == portfolioId && r[i].id in s.images && s.images[r[i].id] == r[i]
    ensures forall k :: k in s.images && s.images[k].portfolioId == portfolioId ==> s.images[k] in r
    ensures forall i, j :: 0 <= i < j < |r| ==> r[i].id < r[j].id
  {
    var ofPortfolio := (img: PortfolioImage) => img.portfolioId == portfolioId;
    ImageRowsStored(s, ofPortfolio);
    ImageRowsAscend(s);
    WhereIncreasing(Rows(s.images, s.nextImageId), ofPortfolio, ImageId);
    Where(Rows(s.images, s.nextImageId), ofPortfolio)
  }

  /** A filter over the images table keeps stored rows, and every stored row it accepts. */
  lemma ImageRowsStored(s: Store, p: PortfolioImage -> bool)
    requires WellKeyed(s)
    ensures var r := Where(Rows(s.images, s.nextImageId), p);
      && (forall i :: 0 <= i < |r| ==> p(r[i]) && r[i].id in s.images && s.images[r[i].id] == r[i])
      && (forall k :: k in s.images && p(s.images[k]) ==> s.images[k] in r)
  {
    var rows := Rows(s.images, s.nextImageId);
    RowsCover(s.images, s.nextImageId);
    var r := Where(rows, p);
    forall i | 0 <= i < |r|
      ensures r[i].id in s.images && s.images[r[i].id] == r[i]
    {
      var j :| 0 <= j < |rows| && rows[j] == r[i];
      var ks := KeysInRange(s.images, 1, s.nextImageId);
      assert ks[j] in s.images && s.images[ks[j]] == r[i];
    }
  }

  /** The model's scan of the images table meets the images in ascending id order. */
  lemma ImageRowsAscend(s: Store)
    requires WellKeyed(s)
    ensures IncreasingBy(Rows(s.images, s.nextImageId), ImageId)
  {
    var ks := KeysInRange(s.images, 1, s.nextImageId);
    var rows := Rows(s.images, s.nextImageId);
    assert forall i :: 0 <= i < |rows| ==> ImageId(rows[i]) == ks[i];
  }

  /**
   * `GetByIdWithImagesAsync` as its interface declares it: the portfolio together with its
   * `Images` collection, or null.
   */
  function GetByIdWithImages(s: Store, id: int): (r: Option<(Portfolio, seq<PortfolioImage>)>)
    requires WellKeyed(s)
    ensures r.Some? <==> id in s.portfolios
    ensures r.Some? ==> r.value.0 == s.portfolios[id] && r.value.1 == ImagesOf(s, id)
  {
    match GetById(s, id)
    case None => None
    case Some(p) => Some((p, ImagesOf(s, p.id)))
  }

  /** `GetImageByIdAsync`: the image with that id, or null. */
  function GetImageById(s: Store, imageId: int): (r: Option<PortfolioImage>)
    requires WellKeyed(s)
    ensures r.Some? <==> imageId in s.images
    ensures r.Some? ==> r.value == s.images[imageId] && r.value.id == imageId
  {
    var rows := Rows(s.images, s.nextImageId);
    RowsCover(s.images, s.nextImageId);
    var r := FirstOrDefault(rows, (img: PortfolioImage) => img.id == imageId);
    assert r.Some? ==> exists i :: 0 <= i < |rows| && rows[i] == r.value;
    r
  }

  method Add(ctx: DbContext, portfolio: Portfolio)
    modifies ctx
    ensures ctx.committed == old(ctx.committed) && ctx.pending == old(ctx.pending) + [AddPortfolio(portfolio)]
  {
    ctx.Stage(AddPortfolio(portfolio));
  }

  method Update(ctx: DbContext, portfolio: Portfolio)
    modifies ctx
    ensures ctx.committed == old(ctx.committed) && ctx.pending == old(ctx.pending) + [UpdatePortfolio(portfolio)]
  {
    ctx.Stage(UpdatePortfolio(portfolio));
  }

  /** Removes the portfolio (its images cascade at the save); a missing id stages nothing. */
  method Delete(ctx: DbContext, id: int)
    requires WellKeyed(ctx.committed)
    modifies ctx
    ensures ctx.committed == old(ctx.committed)
    ensures ctx.pending == old(ctx.pending) + (if id in old(ctx.committed).portfolios then [RemovePortfolio(id)] else [])
  {
    var portfolio := GetById(ctx.committed, id);
    if portfolio.Some? {
      ctx.Stage(RemovePortfolio(portfolio.value.id));
    }
  }

  method AddImage(ctx: DbContext, image: PortfolioImage)
    modifies ctx
    ensures ctx.committed == old(ctx.committed) && ctx.pending == old(ctx.pending) + [Change.AddImage(image)]
  {
    ctx.Stage(Change.AddImage(image));
  }

  /** Removes the image; like `DeleteAsync`, a missing id stages nothing. */
  method DeleteImage(ctx: DbContext, imageId: int)
    requires WellKeyed(ctx.committed)
    modifies ctx
    ensures ctx.committed == old(ctx.committed)
    ensures ctx.pending == old(ctx.pending) + (if imageId in old(ctx.committed).images then [RemoveImage(imageId)] else [])
  {
    var image := GetImageById(ctx.committed, imageId);
    if image.Some? {
      ctx.Stage(RemoveImage(image.value.id));
    }
  }

  method SaveChanges(ctx: DbContext) returns (r: Result<seq<int>, DbError>)
    requires ctx.Valid()
    modifies ctx
    ensures ctx.Valid()
    ensures Saved(old(ctx.committed), old(ctx.pending), ctx.committed, ctx.pending, r)
  {
    r := ctx.SaveChanges();
  }
}
