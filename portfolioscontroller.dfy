/**
 * The `api/portfolios` endpoints: the caller's id taken from the name-identifier claim, the
 * upload checks and the file written for an upload, and each service outcome turned into a
 * response.
 */
module PortfoliosController {
  import opened Wrappers
  import opened Text
  import opened Domain
  import opened AppDbContext
  import opened Http
  import Claims
  import PortfolioService
  import AuthService

  const InvalidUserId := "Invalid user ID"
  const PortfolioNotFound := "Portfolio not found"
  const ImageNotFound := "Image not found"
  const NoFileUploaded := "No file uploaded"
  const WrongFileType := "Only JPG and PNG files are allowed"
  const FileTooLarge := "File size must be less than 20MB"
  const CreateFailed := "An error occurred while creating portfolio"
  const UpdateFailed := "An error occurred while updating portfolio"
  const DeleteFailed := "An error occurred while deleting portfolio"
  const UploadFailed := "An error occurred while uploading image"
  const DeleteImageFailed := "An error occurred while deleting image"

  const AllowedExtensions: seq<string> := [".jpg", ".jpeg", ".png"]

  /** `20 * 1024 * 1024` bytes: the largest upload accepted. */
  const MaxUploadBytes: nat := 20 * 1024 * 1024

  const UploadsUrl := "http://localhost:5037/uploads/portfolios/"

  /** The title of the 400 response that model validation answers for an invalid request. */
  const ValidationFailed := "One or more validation errors occurred."

  /**
   * `[Required]` and `[MaxLength(maxLength)]` on a string property: not empty or white space
   * only, and at most `maxLength` UTF-16 code units.
   */
  predicate RequiredWithin(value: string, maxLength: nat)
  {
    !IsBlank(value) && Utf16Length(value) <= maxLength
  }

  /**
   * The data annotations of `UpdatePortfolioDto`, which model validation checks before
   * `UpdatePortfolio` runs: a title of at most 100 units and a description of at most 500.
   */
  predicate UpdateBodyValid(updateDto: UpdatePortfolioDto)
  {
    RequiredWithin(updateDto.title, 100) && RequiredWithin(updateDto.description, 500)
  }

  /** A missing, empty or blank title is refused. */
  lemma UpdateBodyNeedsTitle(description: string, category: PortfolioCategory)
    ensures !UpdateBodyValid(UpdatePortfolioDto("", description, category))
    ensures !UpdateBodyValid(UpdatePortfolioDto(" \t", description, category))
  {
    assert IsBlank(" \t") by {
      assert IsWhiteSpace(" \t"[0]) && IsWhiteSpace(" \t"[1]);
    }
  }

  /** The title limit at its edge: 100 characters outside the surrogate range pass, 101 do not. */
  lemma UpdateBodyTitleLimit(c: char)
    requires c as int <= 0xFFFF && !IsWhiteSpace(c)
    ensures UpdateBodyValid(UpdatePortfolioDto(seq(100, _ => c), [c], Other))
    ensures !UpdateBodyValid(UpdatePortfolioDto(seq(101, _ => c), [c], Other))
  {
    var t100: string := seq(100, _ => c);
    var t101: string := seq(101, _ => c);
    Utf16LengthOfBmp(t100);
    Utf16LengthOfBmp(t101);
    Utf16LengthOfBmp([c]);
    assert t100[0] == c;
  }

  /**
   * The caller's id: the name-identifier claim, refused when it is missing or empty or when
   * `int.TryParse` fails on it.
   */
  function ParseUserId(claims: seq<Claims.Claim>): (r: Option<int>)
    ensures r.Some? ==> IsInt32(r.value)
    ensures r.Some? <==> match Claims.FindFirst(claims, Claims.NameIdentifier)
      case None => false
      case Some(v) => v != "" && ParseInt32(v).Some?
    ensures r.Some? ==> Some(r.value) == ParseInt32(Claims.FindFirst(claims, Claims.NameIdentifier).value)
  {
    match Claims.FindFirst(claims, Claims.NameIdentifier)
    case None => None
    case Some(v) => if v == "" then None else ParseInt32(v)
  }

  /** The name-identifier claim of a token issued to a user parses back to that user's id. */
  lemma IssuedTokenIdentifiesCaller(settings: AuthService.JwtSettings, user: User, now: Timestamp)
    requires AuthService.SecretConfigured(settings) && IsInt32(user.id)
    ensures ParseUserId(AuthService.GenerateJwtToken(settings, user, now).value.claims) == Some(user.id)
  {
    AuthService.TokenIdentifiesUser(settings, user, now);
  }

  /** `GetAllPortfolios`: every portfolio, with status 200. */
  function GetAllPortfolios(s: Store): (r: ActionResult<seq<PortfolioDto>>)
    requires ValidStore(s)
    ensures StatusCode(r) == 200
    ensures forall i :: 0 <= i < |r.value| ==>
      r.value[i].id in s.portfolios && PortfolioService.Projects(s, r.value[i], s.portfolios[r.value[i].id])
    ensures forall k :: k in s.portfolios ==> exists i :: 0 <= i < |r.value| && r.value[i].id == k
    ensures forall i, j :: 0 <= i < j < |r.value| ==> r.value[i].id != r.value[j].id
  {
    Ok(PortfolioService.GetAllPortfolios(s))
  }

  /**
   * `GetMyPortfolios`: 401 without a usable id claim; otherwise exactly the caller's own
   * portfolios, each once, newest first.
   */
  function GetMyPortfolios(s: Store, claims: seq<Claims.Claim>): (r: ActionResult<seq<PortfolioDto>>)
    requires ValidStore(s)
    ensures ParseUserId(claims).None? <==> r == Unauthorized(InvalidUserId)
    ensures r.Ok? || r.Unauthorized?
    ensures r.Ok? ==> var me := ParseUserId(claims).value;
      && (forall i :: 0 <= i < |r.value| ==>
            && r.value[i].photographerId == me && r.value[i].id in s.portfolios
            && PortfolioService.Projects(s, r.value[i], s.portfolios[r.value[i].id]))
      && (forall k :: k in s.portfolios && s.portfolios[k].photographerId == me ==>
            exists i :: 0 <= i < |r.value| && r.value[i].id == k)
      && (forall i, j :: 0 <= i < j < |r.value| ==> r.value[i].createdDate >= r.value[j].createdDate)
      && (forall i, j :: 0 <= i < j < |r.value| ==> r.value[i].id != r.value[j].id)
  {
    match ParseUserId(claims)
    case None => Unauthorized(InvalidUserId)
    case Some(userId) => Ok(PortfolioService.GetPhotographerPortfolios(s, userId))
  }

  /**
   * `GetPhotographerPortfolios`: that photographer's portfolios, each once, newest first, with
   * status 200.
   */
  function GetPhotographerPortfolios(s: Store, photographerId: int): (r: ActionResult<seq<PortfolioDto>>)
    requires ValidStore(s)
    ensures StatusCode(r) == 200
    ensures forall i :: 0 <= i < |r.value| ==>
      && r.value[i].photographerId == photographerId && r.value[i].id in s.portfolios
      && PortfolioService.Projects(s, r.value[i], s.portfolios[r.value[i].id])
    ensures forall k :: k in s.portfolios && s.portfolios[k].photographerId == photographerId ==>
      exists i :: 0 <= i < |r.value| && r.value[i].id == k
    ensures forall i, j :: 0 <= i < j < |r.value| ==> r.value[i].createdDate >= r.value[j].createdDate
    ensures forall i, j :: 0 <= i < j < |r.value| ==> r.value[i].id != r.value[j].id
  {
    Ok(PortfolioService.GetPhotographerPortfolios(s, photographerId))
  }

  /** `GetPortfolio`: 404 for a missing id; otherwise the portfolio with its images. */
  function GetPortfolio(s: Store, id: int): (r: ActionResult<PortfolioWithImagesDto>)
    requires ValidStore(s)
    ensures r == NotFound(PortfolioNotFound) <==> id !in s.portfolios
    ensures r.Ok? || r.NotFound?
    ensures r.Ok? ==> Some(r.value) == PortfolioService.GetPortfolioWithImagesById(s, id)
    ensures r.Ok? ==> r.value.id == id && r.value.photographerId == s.portfolios[id].photographerId
    ensures r.Ok? ==> forall i, j :: 0 <= i < j < |r.value.images| ==> r.value.images[i].displayOrder <= r.value.images[j].displayOrder
    ensures r.Ok? ==> forall i, j :: 0 <= i < j < |r.value.images| ==> r.value.images[i].id != r.value.images[j].id
    ensures r.Ok? ==> forall d :: d in r.value.images <==>
      d.id in s.images && s.images[d.id].portfolioId == id && d == PortfolioService.ToImageDto(s.images[d.id])
  {
    match PortfolioService.GetPortfolioWithImagesById(s, id)
    case None => NotFound(PortfolioNotFound)
    case Some(p) =>
      PortfolioService.DetailShowsAllItsImages(s, id);
      Ok(p)
  }

  /**
   * `CreatePortfolio`: 401 without a usable id claim; 400 with the service's message when the
   * caller is not a photographer; otherwise the new portfolio, owned by the caller, linked at
   * its own id.
   */
  method CreatePortfolio(ctx: DbContext, claims: seq<Claims.Claim>, createDto: CreatePortfolioDto, now: Timestamp)
    returns (r: ActionResult<PortfolioDto>)
    requires ctx.Valid() && OwnersArePhotographers(ctx.committed) && ctx.pending == []
    modifies ctx
    ensures ctx.Valid() && OwnersArePhotographers(ctx.committed) && ctx.pending == []
    ensures ParseUserId(claims).None? ==> r == Unauthorized(InvalidUserId) && ctx.committed == old(ctx.committed)
    ensures ParseUserId(claims).Some? && !IsPhotographer(old(ctx.committed), ParseUserId(claims).value) ==>
      r == BadRequest(PortfolioService.PhotographerNotFound) && ctx.committed == old(ctx.committed)
    ensures ParseUserId(claims).Some? && IsPhotographer(old(ctx.committed), ParseUserId(claims).value) ==>
      var s := old(ctx.committed);
      var me := ParseUserId(claims).value;
      var k := s.nextPortfolioId;
      var p := Portfolio(k, createDto.title, createDto.description, createDto.category, now, me);
      && ctx.committed == s.(portfolios := s.portfolios[k := p], nextPortfolioId := k + 1)
      && r == CreatedAt(k, PortfolioService.ToDto(p, FullName(s.users[me])))
  {
    var userId := ParseUserId(claims);
    if userId.None? {
      return Unauthorized(InvalidUserId);
    }
    var outcome := PortfolioService.CreatePortfolio(ctx, userId.value, createDto, now);
    r := match outcome
      case Success(portfolio) => CreatedAt(portfolio.id, portfolio)
      case Failure(InvalidOperation(message)) => BadRequest(message)
      case Failure(_) => ServerError(CreateFailed);
  }

  /**
   * `UpdatePortfolio`: 400 for a body that fails model validation, before anything else; 401
   * without a usable id claim; 404 for a missing portfolio; 403 for anyone but its owner;
   * otherwise the edited portfolio.
   */
  method UpdatePortfolio(ctx: DbContext, claims: seq<Claims.Claim>, id: int, updateDto: UpdatePortfolioDto)
    returns (r: ActionResult<PortfolioDto>)
    requires ctx.Valid() && OwnersArePhotographers(ctx.committed) && ctx.pending == []
    modifies ctx
    ensures ctx.Valid() && OwnersArePhotographers(ctx.committed) && ctx.pending == []
    ensures !UpdateBodyValid(updateDto) ==> r == BadRequest(ValidationFailed) && ctx.committed == old(ctx.committed)
    ensures UpdateBodyValid(updateDto) && ParseUserId(claims).None? ==>
      r == Unauthorized(InvalidUserId) && ctx.committed == old(ctx.committed)
    ensures UpdateBodyValid(updateDto) && ParseUserId(claims).Some? && id !in old(ctx.committed).portfolios ==>
      r == NotFound(PortfolioNotFound) && ctx.committed == old(ctx.committed)
    ensures UpdateBodyValid(updateDto) && ParseUserId(claims).Some? && id in old(ctx.committed).portfolios ==>
      var s := old(ctx.committed);
      var me := ParseUserId(claims).value;
      if s.portfolios[id].photographerId != me then
        r == Forbid && ctx.committed == s
      else
        var p := PortfolioService.Edited(s.portfolios[id], updateDto);
        && ctx.committed == s.(portfolios := s.portfolios[id := p])
        && r == Ok(PortfolioService.ToDto(p, FullName(s.users[me])))
  {
    if !UpdateBodyValid(updateDto) {
      return BadRequest(ValidationFailed);
    }
    var userId := ParseUserId(claims);
    if userId.None? {
      return Unauthorized(InvalidUserId);
    }
    var outcome := PortfolioService.UpdatePortfolio(ctx, id, userId.value, updateDto);
    r := match outcome
      case Success(None) => NotFound(PortfolioNotFound)
      case Success(Some(portfolio)) => Ok(portfolio)
      case Failure(UnauthorizedAccess(_)) => Forbid
      case Failure(_) => ServerError(UpdateFailed);
  }

  /**
   * `DeletePortfolio`: 401 without a usable id claim; 404 for a missing portfolio; 403 for
   * anyone but its owner; otherwise 204, with the portfolio and its images gone.
   */
  method DeletePortfolio(ctx: DbContext, claims: seq<Claims.Claim>, id: int) returns (r: ActionResult<()>)
    requires ctx.Valid() && OwnersArePhotographers(ctx.committed) && ctx.pending == []
    modifies ctx
    ensures ctx.Valid() && OwnersArePhotographers(ctx.committed) && ctx.pending == []
    ensures ParseUserId(claims).None? ==> r == Unauthorized(InvalidUserId) && ctx.committed == old(ctx.committed)
    ensures ParseUserId(claims).Some? && id !in old(ctx.committed).portfolios ==>
      r == NotFound(PortfolioNotFound) && ctx.committed == old(ctx.committed)
    ensures ParseUserId(claims).Some? && id in old(ctx.committed).portfolios ==>
      var s := old(ctx.committed);
      if s.portfolios[id].photographerId != ParseUserId(claims).value then
        r == Forbid && ctx.committed == s
      else
        r == NoContent && ctx.committed == RemovePortfolioCascade(s, id)
  {
    var userId := ParseUserId(claims);
    if userId.None? {
      return Unauthorized(InvalidUserId);
    }
    var outcome := PortfolioService.DeletePortfolio(ctx, id, userId.value);
    r := match outcome
      case Success(false) => NotFound(PortfolioNotFound)
      case Success(true) => NoContent
      case Failure(UnauthorizedAccess(_)) => Forbid
      case Failure(_) => ServerError(DeleteFailed);
  }

  /** An uploaded form file: its client-side name and its length in bytes. */
  datatype FormFile = FormFile(fileName: string, length: nat)

  /**
   * `Path.GetExtension` with `/` as the only directory separator: from the last `.` of the
   * file name to the end, or empty when there is no `.` after the last `/` or the `.` ends the
   * name.
   */
  function GetExtension(path: string): (ext: string)
    ensures ext == "" || (2 <= |ext| <= |path| && ext[0] == '.' && ext == path[|path| - |ext|..])
    ensures ext != "" ==> forall i :: 1 <= i < |ext| ==> ext[i] != '.' && ext[i] != '/'
  {
    var k := LastMark(path, |path|);
    if k < 0 || path[k] == '/' || k == |path| - 1 then "" else path[k..]
  }

  /**
   * The scan of `Path.GetExtension` from position `n` backwards: the position of the last `.`
   * or `/` before `n`, or -1 when there is none.
   */
  function LastMark(path: string, n: nat): (k: int)
    requires n <= |path|
    ensures -1 <= k < n
    ensures k >= 0 ==> path[k] == '.' || path[k] == '/'
    ensures forall j :: k < j < n ==> path[j] != '.' && path[j] != '/'
    decreases n
  {
    if n == 0 then -1
    else if path[n - 1] == '.' || path[n - 1] == '/' then n - 1
    else LastMark(path, n - 1)
  }

  /** A name that ends in `.` and a suffix free of `.` and `/` has that suffix as its extension. */
  lemma GetExtensionOf(stem: string, suffix: string)
    requires |suffix| > 0 && forall i :: 0 <= i < |suffix| ==> suffix[i] != '.' && suffix[i] != '/'
    ensures GetExtension(stem + "." + suffix) == "." + suffix
  {
    var path := stem + "." + suffix;
    assert path[|stem|] == '.';
    assert forall j :: |stem| < j < |path| ==> path[j] == suffix[j - |stem| - 1];
    assert LastMark(path, |path|) == |stem|;
    assert path[|stem|..] == "." + suffix;
  }

  /**
   * The checks `UploadImage` makes, in order: a file must be present and non-empty, its
   * extension (lower-cased) must be `.jpg`, `.jpeg` or `.png`, and it may have at most 20 MB.
   * The accepted extension is returned.
   */
  function CheckUpload(file: Option<FormFile>): (r: Result<string, string>)
    ensures r.Success? <==>
      && file.Some? && 0 < file.value.length <= MaxUploadBytes
      && ToLowerAscii(GetExtension(file.value.fileName)) in AllowedExtensions
    ensures r.Success? ==> r.value == ToLowerAscii(GetExtension(file.value.fileName))
    ensures r.Failure? ==>
      r.error == (if file.None? || file.value.length == 0 then NoFileUploaded
        else if ToLowerAscii(GetExtension(file.value.fileName)) !in AllowedExtensions then WrongFileType
        else FileTooLarge)
  {
    if file.None? || file.value.length == 0 then Failure(NoFileUploaded)
    else
      var extension := ToLowerAscii(GetExtension(file.value.fileName));
      if extension !in AllowedExtensions then Failure(WrongFileType)
      else if file.value.length > MaxUploadBytes then Failure(FileTooLarge)
      else Success(extension)
  }

  /** The extension is compared lower-cased, and a file of exactly 20 MB is accepted. */
  lemma UploadAcceptsUpperCaseAtLimit()
    ensures CheckUpload(Some(FormFile("Beach.JPG", MaxUploadBytes))) == Success(".jpg")
  {
    GetExtensionOf("Beach", "JPG");
    assert "Beach" + "." + "JPG" == "Beach.JPG";
    assert ToLowerAscii(".JPG") == ".jpg";
  }

  /** One byte over 20 MB is refused, after the type check has passed. */
  lemma UploadRefusesOverLimit()
    ensures CheckUpload(Some(FormFile("beach.png", MaxUploadBytes + 1))) == Failure(FileTooLarge)
  {
    GetExtensionOf("beach", "png");
    assert "beach" + "." + "png" == "beach.png";
    assert ToLowerAscii(".png") == ".png";
  }

  /** A `.` before the last `/` is no extension, so the type check refuses the file. */
  lemma UploadRefusesDotBeforeSlash()
    ensures CheckUpload(Some(FormFile("archive.tar/jpg", 1))) == Failure(WrongFileType)
  {
    var p := "archive.tar/jpg";
    assert p[11] == '/' && p[12] == 'j' && p[13] == 'p' && p[14] == 'g';
    assert LastMark(p, |p|) == 11;
  }

  /** Where the saved file is served from. */
  function ImageUrl(fileName: string): string
  {
    UploadsUrl + fileName
  }

  /**
   * `UploadImage`: a request without a file fails model validation, since `IFormFile file` is a
   * non-nullable parameter, with 400 before the action runs; then 401 without a usable id claim;
   * 400 when a check fails; otherwise the file is
   * written as `guid + extension` before the portfolio is looked up, so it is written even when
   * the outcome is 400 for a missing portfolio or 403 for a non-owner. For the owner, one image
   * pointing at the file is added and returned, linked to its portfolio.
   */
  method UploadImage(ctx: DbContext, claims: seq<Claims.Claim>, id: int, file: Option<FormFile>, displayOrder: int, guid: string)
    returns (r: ActionResult<PortfolioImageDto>, written: Option<string>)
    requires ctx.Valid() && OwnersArePhotographers(ctx.committed) && ctx.pending == []
    modifies ctx
    ensures ctx.Valid() && OwnersArePhotographers(ctx.committed) && ctx.pending == []
    ensures file.None? ==> r == BadRequest(ValidationFailed) && written == None && ctx.committed == old(ctx.committed)
    ensures file.Some? && ParseUserId(claims).None? ==>
      r == Unauthorized(InvalidUserId) && written == None && ctx.committed == old(ctx.committed)
    ensures file.Some? && ParseUserId(claims).Some? && CheckUpload(file).Failure? ==>
      r == BadRequest(CheckUpload(file).error) && written == None && ctx.committed == old(ctx.committed)
    ensures file.Some? && ParseUserId(claims).Some? && CheckUpload(file).Success? ==>
      var s := old(ctx.committed);
      var fileName := guid + CheckUpload(file).value;
      && written == Some(fileName)
      && (id !in s.portfolios ==> r == BadRequest(PortfolioService.PortfolioNotFound) && ctx.committed == s)
      && (id in s.portfolios && s.portfolios[id].photographerId != ParseUserId(claims).value ==>
            r == Forbid && ctx.committed == s)
      && (id in s.portfolios && s.portfolios[id].photographerId == ParseUserId(claims).value ==>
            var k := s.nextImageId;
            && ctx.committed == s.(images := s.images[k := PortfolioImage(k, ImageUrl(fileName), displayOrder, id)], nextImageId := k + 1)
            && r == CreatedAt(id, PortfolioImageDto(k, ImageUrl(fileName), displayOrder)))
  {
    written := None;
    if file.None? {
      return BadRequest(ValidationFailed), written;
    }
    var userId := ParseUserId(claims);
    if userId.None? {
      return Unauthorized(InvalidUserId), written;
    }
    var checked := CheckUpload(file);
    if checked.Failure? {
      return BadRequest(checked.error), written;
    }
    var fileName := guid + checked.value;
    written := Some(fileName);
    var outcome := PortfolioService.AddImageToPortfolio(ctx, id, userId.value, ImageUrl(fileName), displayOrder);
    r := match outcome
      case Success(image) => CreatedAt(id, image)
      case Failure(InvalidOperation(message)) => BadRequest(message)
      case Failure(UnauthorizedAccess(_)) => Forbid
      case Failure(_) => ServerError(UploadFailed);
  }

  /**
   * `DeleteImage`: 401 without a usable id claim; 404 for a missing image; 403 unless the caller
   * owns the image's portfolio; otherwise 204, with only that image gone.
   */
  method DeleteImage(ctx: DbContext, claims: seq<Claims.Claim>, imageId: int) returns (r: ActionResult<()>)
    requires ctx.Valid() && OwnersArePhotographers(ctx.committed) && ctx.pending == []
    modifies ctx
    ensures ctx.Valid() && OwnersArePhotographers(ctx.committed) && ctx.pending == []
    ensures ParseUserId(claims).None? ==> r == Unauthorized(InvalidUserId) && ctx.committed == old(ctx.committed)
    ensures ParseUserId(claims).Some? && imageId !in old(ctx.committed).images ==>
      r == NotFound(ImageNotFound) && ctx.committed == old(ctx.committed)
    ensures ParseUserId(claims).Some? && imageId in old(ctx.committed).images ==>
      var s := old(ctx.committed);
      var parent := s.images[imageId].portfolioId;
      if parent !in s.portfolios || s.portfolios[parent].photographerId != ParseUserId(claims).value then
        r == Forbid && ctx.committed == s
      else
        r == NoContent && ctx.committed == s.(images := s.images - {imageId})
  {
    var userId := ParseUserId(claims);
    if userId.None? {
      return Unauthorized(InvalidUserId);
    }
    var outcome := PortfolioService.DeleteImageFromPortfolio(ctx, imageId, userId.value);
    r := match outcome
      case Success(false) => NotFound(ImageNotFound)
      case Success(true) => NoContent
      case Failure(UnauthorizedAccess(_)) => Forbid
      case Failure(_) => ServerError(DeleteImageFailed);
  }
}
