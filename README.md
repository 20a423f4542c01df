# PhotoBooker core in Dafny

PhotoBooker is a photography-booking marketplace. Photographers publish portfolios of
categorised images, and clients browse them. This project models its core and proves
properties of the model. The core covers:

- **Store.** The `AppDbContext` over a single SQLite database: a users table shared by
  `User`, `Photographer` and `Client` (table per hierarchy with a `Role` discriminator),
  portfolios, portfolio images, and the booking-side tables reduced to their keys. Unique
  usernames, cascades and restricted deletes are enforced when `SaveChanges` commits.
  `DbContext` is a class: `committed` is the saved store and `pending` is the list of staged
  changes. `SaveChanges` applies all of them or none.
- **Repositories.** The user, photographer and portfolio repositories: queries are functions
  of the store, and writes stage changes on the context.
- **Services.** `AuthService` registers users, logs them in and issues tokens.
  `PortfolioService` covers the catalog and its ownership-checked writes.
  `PhotographerService` reads photographer profiles and edits bios.
- **Controllers.** `AuthController` and `PortfoliosController` map each service outcome to an
  HTTP result. This includes reading the caller's id from the `NameIdentifier` claim and the
  upload checks (extension, size, file name).
- **Client rules.** The category names of `categoryHelper.ts`. The lightbox of
  `PortfolioViewPage.tsx` as a class with its handlers. The registration form of
  `Register.tsx`, also as a class, with its validation and its `parseInt` of the role.

Every service method keeps `ValidStore` (keys, unique usernames, foreign keys) and
`OwnersArePhotographers` (every portfolio's owner has the Photographer role) on the committed
store. Every such method states the whole new store for each branch of the source: not
found, not owner, success.

The model follows these behaviours of the code:

- **Authentication.** The API's `PhotoBooker.API/Program.cs:14-25` sets up cookie
  authentication. The issued JWT is therefore never validated on requests, so the caller's
  claims are a parameter of each action.
- **Denied writes.** A write by someone who is not the owner returns `Forbid()`. It is
  modelled as status 403. With the cookie scheme the framework would redirect to the
  access-denied path instead.
- **Validated body.** `[ApiController]` validates `UpdatePortfolioDto`'s data annotations
  before `UpdatePortfolio` runs. A blank title or description, a title over 100 UTF-16 units
  or a description over 500 is answered 400 before the caller's id is read.
  `UploadImage`'s `IFormFile file` is a non-nullable parameter without a default, so a
  request without a file gets the same validation 400 before the action runs; the action's own
  "No file uploaded" then answers only a named file of length zero.
- **Upload writes first.** An upload writes the file before the ownership check. So a
  missing portfolio or a non-owner still leaves a file behind (`UploadImage`'s `written`
  result).
- **Upload size.** The size limit is `length > 20 * 1024 * 1024`, so a file of exactly 20 MiB
  is accepted, although the message says "less than 20MB".
- **Register without a key.** With no JWT secret key configured, `Register` stores the user
  before the token fails, then answers 400. `Login` in the same configuration answers 500.
- **Category.** `PortfolioDto.cs` and `UpdatePortfolioDto.cs` declare no `Category`, but the
  services set and read one (`PortfolioService.cs:148`). The model's DTOs carry the category,
  as the services use it.
- **Repository members.** `PortfolioRepository.cs` lacks the image members declared in
  `IPortfolioRepository.cs`. They are modelled from the interface and from how the service
  uses them.

## Model

| member | source | states |
|---|---|---|
| Domain.RoleValue | PhotoBooker.Client/src/types/auth.ts:1-5 | a role's number is 0, 1 or 2 |
| Domain.RoleNameInjective | PhotoBooker.Infrastructure/Data/AppDbContext.cs:30-34 | two roles have the same name, or the same number, exactly when they are the same role |
| Domain.CategoryValue | PhotoBooker.Domain/Enums/PortfolioCategory.cs:3-16 | the eleven categories are numbered within 0..10 |
| Domain.CategoryOfValue | PhotoBooker.Domain/Enums/PortfolioCategory.cs:3-16 | a number names a category exactly when it is in 0..10, and then it is that category's number |
| Domain.CategoryValueRoundTrip | PhotoBooker.Domain/Enums/PortfolioCategory.cs:3-16 | converting a category to its number and back gives the same category |
| AppDbContext.EntityTypeOf | PhotoBooker.Infrastructure/Data/AppDbContext.cs:30-34 | the entity type chosen for a discriminator value maps back to that value |
| AppDbContext.DiscriminatorRoundTrip | PhotoBooker.Infrastructure/Data/AppDbContext.cs:30-34 | each entity type is materialised from its own discriminator value |
| AppDbContext.Rows | PhotoBooker.Infrastructure/Repositories/PortfolioRepository.cs:19-21 | reading a table gives one row per stored key; the model reads them in ascending key order |
| AppDbContext.RowsCover | PhotoBooker.Infrastructure/Repositories/PortfolioRepository.cs:19-21 | every stored row is among the rows read |
| AppDbContext.RemoveUserWellKeyed | PhotoBooker.Infrastructure/Data/AppDbContext.cs:41-70 | removing a user with its cascades keeps every table keyed by its ids |
| AppDbContext.RemovePortfolioWellKeyed | PhotoBooker.Infrastructure/Data/AppDbContext.cs:48-52 | removing a portfolio with its images keeps every table keyed by its ids |
| AppDbContext.ApplyWellKeyed | PhotoBooker.Infrastructure/Data/AppDbContext.cs:37-106 | any one change that applies keeps every table keyed by its ids |
| AppDbContext.Apply | PhotoBooker.Infrastructure/Data/AppDbContext.cs:37-106 | one staged change against the store: an insert takes the next identity value, an update or delete of a missing row is a concurrency conflict, a restricted delete fails; no contract of its own, its meaning in `ApplyWellKeyed` and the `…Commits`/`…Cascades`/`…Restricted` lemmas |
| AppDbContext.ApplyAll | PhotoBooker.Infrastructure/Data/AppDbContext.cs:37-106 | the staged changes in order, stopping at the first failure; no contract of its own, its meaning in `ApplyAllWellKeyed` and `CommitOne` |
| AppDbContext.Commit | PhotoBooker.Infrastructure/Data/AppDbContext.cs:37-106 | a commit that succeeds leaves unique usernames and every foreign key satisfied (with keys as well, in `CommitValid`) |
| AppDbContext.ApplyAllWellKeyed | PhotoBooker.Infrastructure/Data/AppDbContext.cs:37-106 | a sequence of changes that applies keeps every table keyed by its ids |
| AppDbContext.CommitValid | PhotoBooker.Infrastructure/Data/AppDbContext.cs:37-106 | a commit that succeeds leaves a store with keys, unique usernames and foreign keys intact |
| AppDbContext.CommitOne | PhotoBooker.Infrastructure/Data/AppDbContext.cs:37-106 | committing one change is applying it and then checking the database's constraints |
| AppDbContext.RemovePortfolioCascades | PhotoBooker.Infrastructure/Data/AppDbContext.cs:48-52 | deleting a portfolio commits and removes it and exactly its images |
| AppDbContext.RemovePortfolioCascade | PhotoBooker.Infrastructure/Data/AppDbContext.cs:48-52 | the portfolio and the images that reference it removed; no contract of its own, its meaning in `RemovePortfolioCascades` and `RemovePortfolioWellKeyed` |
| AppDbContext.RemoveUserCascades | PhotoBooker.Infrastructure/Data/AppDbContext.cs:41-70 | deleting a user that no booking or shooting references commits; the user, the user's portfolios, their images, packages and availabilities are gone, other portfolios stay, and bookings and shootings are unchanged |
| AppDbContext.RemoveUserCascade | PhotoBooker.Infrastructure/Data/AppDbContext.cs:41-70 | the user and its portfolios, their images, packages and availabilities removed; no contract of its own, its meaning in `RemoveUserCascades` and `RemoveUserWellKeyed` |
| AppDbContext.RemoveUserRestricted | PhotoBooker.Infrastructure/Data/AppDbContext.cs:72-106 | deleting a user that a booking request or shooting references, directly or through one of the user's packages, is refused with a foreign-key error |
| AppDbContext.RemovePackageRestricted | PhotoBooker.Infrastructure/Data/AppDbContext.cs:72-88 | deleting a package that a booking request references is refused |
| AppDbContext.RemoveShootingCategoryRestricted | PhotoBooker.Infrastructure/Data/AppDbContext.cs:60-64 | deleting a shooting category that a package references is refused |
| AppDbContext.AddDuplicateUsernameRefused | PhotoBooker.Infrastructure/Data/AppDbContext.cs:37-39 | adding a user whose username is taken is refused by the unique index |
| AppDbContext.AddUserCommits | PhotoBooker.Infrastructure/Data/AppDbContext.cs:37-39 | a user with a fresh username is stored under the next id, and that id is returned |
| AppDbContext.UpdateUserCommits | PhotoBooker.Infrastructure/Repositories/PhotographerRepository.cs:43-47 | updating a stored user with its own username commits and replaces exactly that row |
| AppDbContext.AddPortfolioCommits | PhotoBooker.Infrastructure/Repositories/PortfolioRepository.cs:40-43 | a portfolio of a stored user is added under the next id, everything else unchanged |
| AppDbContext.UpdatePortfolioCommits | PhotoBooker.Infrastructure/Repositories/PortfolioRepository.cs:45-49 | updating a stored portfolio replaces exactly that row |
| AppDbContext.AddImageCommits | PhotoBooker.Application/Interfaces/IPortfolioRepository.cs:16 | an image of a stored portfolio is added under the next id |
| AppDbContext.RemoveImageCommits | PhotoBooker.Application/Interfaces/IPortfolioRepository.cs:18 | deleting a stored image removes exactly that row |
| AppDbContext.DbContext.constructor | PhotoBooker.Infrastructure/Data/AppDbContext.cs:30-106 | a context opens on a valid store with nothing staged |
| AppDbContext.DbContext.Stage | PhotoBooker.Infrastructure/Repositories/PortfolioRepository.cs:40-58 | staging appends the change and leaves the saved store as it was |
| AppDbContext.DbContext.SaveChanges | PhotoBooker.Infrastructure/Repositories/PortfolioRepository.cs:65-68 | all staged changes are committed together or none are; the store stays valid and nothing stays staged |
| UserRepository.GetByUsername | PhotoBooker.Infrastructure/Repositories/UserRepository.cs:17-20 | the user found has that username and is stored; none is found exactly when no stored user has it |
| UserRepository.GetByUsernameUnique | PhotoBooker.Infrastructure/Repositories/UserRepository.cs:17-20 | with unique usernames, looking up a stored user's username finds that user |
| UserRepository.GetById | PhotoBooker.Infrastructure/Repositories/UserRepository.cs:22-25 | a user is found exactly when the id is stored, and it has that id |
| UserRepository.UsernameExists | PhotoBooker.Infrastructure/Repositories/UserRepository.cs:27-30 | true exactly when some stored user has the username |
| UserRepository.UsernameExistsIffFound | PhotoBooker.Infrastructure/Repositories/UserRepository.cs:17-30 | the username check agrees with the username lookup |
| UserRepository.Add | PhotoBooker.Infrastructure/Repositories/UserRepository.cs:32-36 | the user is staged for insertion and returned; nothing is saved |
| UserRepository.SaveChanges | PhotoBooker.Infrastructure/Repositories/UserRepository.cs:38-41 | all staged changes are committed together or none are |
| PhotographerRepository.GetAll | PhotoBooker.Infrastructure/Repositories/PhotographerRepository.cs:17-22 | exactly the stored users with the Photographer role, each once (in the model's ascending id order) |
| PhotographerRepository.UserRowsAscend | PhotoBooker.Infrastructure/Repositories/PhotographerRepository.cs:19-21 | the model's scan of the users table meets them in ascending id order, so no user twice |
| PhotographerRepository.GetById | PhotoBooker.Infrastructure/Repositories/PhotographerRepository.cs:24-29 | found exactly when the id is a stored photographer, and then that row |
| PhotographerRepository.GetByUserId | PhotoBooker.Infrastructure/Repositories/PhotographerRepository.cs:31-36 | found exactly when the user id is a stored photographer, and then that row, as for the lookup by id |
| PhotographerRepository.Exists | PhotoBooker.Infrastructure/Repositories/PhotographerRepository.cs:58-61 | true exactly when the id is a stored photographer |
| PhotographerRepository.ExistsIffFound | PhotoBooker.Infrastructure/Repositories/PhotographerRepository.cs:24-29 | the existence check agrees with the lookup by id |
| PhotographerRepository.Add | PhotoBooker.Infrastructure/Repositories/PhotographerRepository.cs:38-41 | the photographer is staged for insertion; nothing is saved |
| PhotographerRepository.Update | PhotoBooker.Infrastructure/Repositories/PhotographerRepository.cs:43-47 | the update is staged; nothing is saved |
| PhotographerRepository.Delete | PhotoBooker.Infrastructure/Repositories/PhotographerRepository.cs:49-56 | a removal is staged when the photographer is found, and nothing otherwise |
| PhotographerRepository.SaveChanges | PhotoBooker.Infrastructure/Repositories/PhotographerRepository.cs:63-66 | all staged changes are committed together or none are |
| PortfolioRepository.GetAll | PhotoBooker.Infrastructure/Repositories/PortfolioRepository.cs:17-22 | every stored portfolio exactly once, each as stored |
| PortfolioRepository.OwnedBy | PhotoBooker.Infrastructure/Repositories/PortfolioRepository.cs:26-27 | exactly the stored portfolios of that photographer, each once (in the model's ascending id order) |
| PortfolioRepository.SortingKeepsIdsDistinct | PhotoBooker.Infrastructure/Repositories/PortfolioRepository.cs:26-29 | sorting portfolios with distinct ids gives no portfolio twice |
| PortfolioRepository.GetByPhotographerId | PhotoBooker.Infrastructure/Repositories/PortfolioRepository.cs:24-31 | exactly that photographer's stored portfolios, each once, newest first |
| PortfolioRepository.GetById | PhotoBooker.Infrastructure/Repositories/PortfolioRepository.cs:33-38 | found exactly when the id is stored, and then that row |
| PortfolioRepository.Exists | PhotoBooker.Infrastructure/Repositories/PortfolioRepository.cs:60-63 | true exactly when the id is stored |
| PortfolioRepository.ImagesOf | PhotoBooker.Application/Interfaces/IPortfolioRepository.cs:10 | exactly the stored images whose portfolio is the given one, each once (in the model's ascending id order) |
| PortfolioRepository.GetByIdWithImages | PhotoBooker.Application/Interfaces/IPortfolioRepository.cs:10 | found exactly when the id is stored, with that portfolio's images |
| PortfolioRepository.GetImageById | PhotoBooker.Application/Interfaces/IPortfolioRepository.cs:17 | found exactly when the image id is stored, and then that row |
| PortfolioRepository.Add | PhotoBooker.Infrastructure/Repositories/PortfolioRepository.cs:40-43 | the portfolio is staged for insertion; nothing is saved |
| PortfolioRepository.Update | PhotoBooker.Infrastructure/Repositories/PortfolioRepository.cs:45-49 | the update is staged; nothing is saved |
| PortfolioRepository.Delete | PhotoBooker.Infrastructure/Repositories/PortfolioRepository.cs:51-58 | a removal is staged when the portfolio is found, and nothing otherwise |
| PortfolioRepository.AddImage | PhotoBooker.Application/Interfaces/IPortfolioRepository.cs:16 | the image is staged for insertion; nothing is saved |
| PortfolioRepository.DeleteImage | PhotoBooker.Application/Interfaces/IPortfolioRepository.cs:18 | a removal is staged when the image is found, and nothing otherwise |
| PortfolioRepository.SaveChanges | PhotoBooker.Infrastructure/Repositories/PortfolioRepository.cs:65-68 | all staged changes are committed together or none are |
| Linq.Where | PhotoBooker.Infrastructure/Repositories/PortfolioRepository.cs:26-27 | no longer than its input; every element kept satisfies the predicate and is from the input, and every input element that satisfies it is kept |
| Linq.WhereCounts | PhotoBooker.Infrastructure/Repositories/PortfolioRepository.cs:26-27 | each element satisfying the predicate occurs as often as in the input, and any other not at all |
| Linq.WhereIncreasing | PhotoBooker.Infrastructure/Repositories/PortfolioRepository.cs:26-27 | filtering keeps the order of what it keeps: a strictly increasing key stays strictly increasing |
| Linq.DistinctIdsOccurOnce | PhotoBooker.Infrastructure/Repositories/PortfolioRepository.cs:26-27 | in a sequence with pairwise distinct ids no element occurs twice |
| Linq.PermutationKeepsDistinctIds | PhotoBooker.Application/Services/PortfolioService.cs:87-88 | reordering a sequence with pairwise distinct ids keeps them pairwise distinct |
| Linq.Select | PhotoBooker.Application/Services/PortfolioService.cs:24-33 | one result per element, each the projection of that element |
| Linq.FirstOrDefault | PhotoBooker.Infrastructure/Repositories/UserRepository.cs:19 | none exactly when no element matches; otherwise the first that does |
| Linq.Any | PhotoBooker.Infrastructure/Repositories/UserRepository.cs:29 | true exactly when some element matches |
| Linq.OrderBy | PhotoBooker.Application/Services/PortfolioService.cs:87-88 | a permutation of the input, sorted by the key |
| Linq.OrderByMembers | PhotoBooker.Application/Services/PortfolioService.cs:87-88 | sorting neither adds nor drops an element |
| Linq.OrderByStable | PhotoBooker.Application/Services/PortfolioService.cs:87-88 | elements with equal keys keep their input order |
| Linq.SelectOrderBy | PhotoBooker.Application/Services/PortfolioService.cs:87-95 | sorting and then projecting equals projecting and then sorting by the projected key |
| Text.IntToString | PhotoBooker.Application/Services/AuthService.cs:107 | an integer's decimal text is never empty |
| Text.ParseInt32 | PhotoBooker.API/Controllers/PortfoliosController.cs:51-56 | a parsed value always fits in 32 bits |
| Text.ParseInt32Rejects | PhotoBooker.API/Controllers/PortfoliosController.cs:51-56 | empty, blank, sign-only and trailing-garbage texts are refused; surrounding white space and a plus sign are allowed |
| Text.IntToStringRoundTrip | PhotoBooker.API/Controllers/PortfoliosController.cs:51-56 | parsing the text of a 32-bit id gives the id back |
| Text.ToLowerAscii | PhotoBooker.API/Controllers/PortfoliosController.cs:246 | same length; exactly the ASCII capitals are lowered and every other character is kept |
| Text.Utf16Length | PhotoBooker.Client/src/components/auth/Register.tsx:38-48 | a string's JavaScript length lies between its number of characters and twice that |
| Text.Utf16LengthOfBmp | PhotoBooker.Client/src/components/auth/Register.tsx:38-48 | for characters of the Basic Multilingual Plane the JavaScript length is the number of characters |
| Text.DigitPrefix | PhotoBooker.Client/src/components/auth/Register.tsx:24 | the longest prefix made only of digits of the radix |
| Text.JsParseInt | PhotoBooker.Client/src/components/auth/Register.tsx:24 | JavaScript `parseInt` without a radix; no contract of its own, its meaning in `JsParseIntOfIntToString` and the example lemmas below |
| Text.RadixValueDecimal | PhotoBooker.Client/src/components/auth/Register.tsx:24 | the radix-10 reading of decimal digits is their decimal value |
| Text.JsParseIntOfDigits | PhotoBooker.Client/src/components/auth/Register.tsx:24 | `parseInt` of decimal digits is their decimal value |
| Text.JsParseIntOfNegated | PhotoBooker.Client/src/components/auth/Register.tsx:24 | `parseInt` of a minus sign and decimal digits is their value negated |
| Text.JsParseIntOfIntToString | PhotoBooker.Client/src/components/auth/Register.tsx:24 | `parseInt` reads back the decimal text of every integer, sign included |
| Text.JsParseIntOfDigit | PhotoBooker.Client/src/components/auth/Register.tsx:24 | `parseInt` of one digit is its value |
| Text.JsParseIntOfRoleOptions | PhotoBooker.Client/src/components/auth/Register.tsx:130-131 | the option values "0", "1" and "2" parse as 0, 1 and 2 |
| Text.JsParseIntStopsAtNonDigit | PhotoBooker.Client/src/components/auth/Register.tsx:24 | empty and non-numeric texts give NaN; parsing stops at the first non-digit after leading white space |
| Claims.UriInjective | PhotoBooker.Application/Services/AuthService.cs:105-112 | distinct claim types have distinct URIs |
| Claims.FindFirstMeaning | PhotoBooker.API/Controllers/AuthController.cs:75-79 | no value exactly when no claim has the type; otherwise the value of a claim of that type with none before it |
| Claims.FindFirst | PhotoBooker.API/Controllers/PortfoliosController.cs:51 | `User.FindFirst(type)?.Value`; no contract of its own, its meaning in `FindFirstMeaning` and `FindFirstAt` |
| Claims.FindFirstAt | PhotoBooker.API/Controllers/AuthController.cs:75-79 | the first claim of the type gives the value found |
| AuthService.GenerateJwtToken | PhotoBooker.Application/Services/AuthService.cs:92-123 | refused with the key message exactly when the secret key is missing or empty; otherwise the token has the configured issuer and audience, expires seven days on, and carries the user's id, username, first name, last name and role |
| AuthService.ClaimOrderFound | PhotoBooker.Application/Services/AuthService.cs:105-112 | in the five claims in their order, each type finds its own value |
| AuthService.TokenClaimsFound | PhotoBooker.Application/Services/AuthService.cs:105-112 | each of the token's claim types finds the user's corresponding field |
| AuthService.TokenClaims | PhotoBooker.Application/Services/AuthService.cs:105-112 | the five claims in the source's order; no contract of its own, its meaning in `ClaimOrderFound` and `TokenClaimsFound` |
| AuthService.TokenIdentifiesUser | PhotoBooker.Application/Services/AuthService.cs:105-107 | parsing the token's NameIdentifier gives back the user's id |
| AuthService.Issue | PhotoBooker.Application/Services/AuthService.cs:49-59 | succeeds exactly when a secret key is configured, with the user's id, username, first name, last name and role and the token `GenerateJwtToken` makes; otherwise fails with the key message |
| AuthService.RegisteredKeepsOwners | PhotoBooker.Application/Services/AuthService.cs:35-46 | adding a user keeps every portfolio owned by a photographer |
| AuthService.Register | PhotoBooker.Application/Services/AuthService.cs:23-60 | a taken username fails with its message and changes nothing; otherwise the new user is stored under the next id with the hashed password, and the response is issued for that user |
| AuthService.Login | PhotoBooker.Application/Services/AuthService.cs:62-90 | success only for a stored user with that username whose hash verifies the password, with that user's response; an authentication failure carries the credentials message |
| AuthService.LoginFailuresAlike | PhotoBooker.Application/Services/AuthService.cs:65-76 | an unknown username and a wrong password give the same failure |
| AuthService.LoginSucceeds | PhotoBooker.Application/Services/AuthService.cs:62-90 | the right password for a stored user succeeds with that user's id and role |
| AuthService.RegisteredStoreValid | PhotoBooker.Application/Services/AuthService.cs:35-46 | registering a fresh username keeps the store valid |
| AuthService.LoginAfterRegister | PhotoBooker.Application/Services/AuthService.cs:23-90 | after registering, logging in with the same username and password succeeds for the new user id and role |
| AuthController.Register | PhotoBooker.API/Controllers/AuthController.cs:25-43 | a taken username is 400 with nothing stored; a fresh one is stored, and the answer is 200 with the service's response issued for the new user (its id and role), or 400 with the key message when no secret key is configured |
| AuthController.Login | PhotoBooker.API/Controllers/AuthController.cs:49-67 | 200 only for matching credentials, with the service's response issued for that user unchanged; 401 with the credentials message; any other failure is 500 with the fixed message |
| AuthController.LoginResponsesAlike | PhotoBooker.API/Controllers/AuthController.cs:57-61 | an unknown username and a wrong password get the same 401 |
| AuthController.LoginWithoutSecretIsServerError | PhotoBooker.API/Controllers/AuthController.cs:62-66 | without a secret key, correct credentials get 500 |
| AuthController.LoginOk | PhotoBooker.API/Controllers/AuthController.cs:53-55 | correct credentials get 200 with that user's id and role |
| AuthController.CurrentUserOfIssuedToken | PhotoBooker.API/Controllers/AuthController.cs:73-89 | for an issued token's claims, `me` returns the user's id, username, first and last name and role |
| PhotographerService.GetAllPhotographers | PhotoBooker.Application/Services/PhotographerService.cs:15-28 | exactly one profile per stored photographer and none for clients, each showing that photographer |
| PhotographerService.Profiles | PhotoBooker.Application/Services/PhotographerService.cs:19-27 | one profile per user, in the same order, each the projection of that user |
| PhotographerService.GetPhotographerById | PhotoBooker.Application/Services/PhotographerService.cs:30-46 | none exactly when the id is not a photographer; otherwise that photographer's profile |
| PhotographerService.BioEditKeepsOwners | PhotoBooker.Application/Services/PhotographerService.cs:55-58 | changing a bio keeps every portfolio owned by a photographer |
| PhotographerService.UpdatePhotographer | PhotoBooker.Application/Services/PhotographerService.cs:48-69 | no photographer gives null with nothing changed; otherwise only the bio changes, and the returned profile shows it |
| PhotographerService.UpdatedBioReadsBack | PhotoBooker.Application/Services/PhotographerService.cs:30-69 | after a bio update, reading the profile back shows the new bio |
| PortfolioService.ProjectAll | PhotoBooker.Application/Services/PortfolioService.cs:24-33 | one DTO per portfolio, each with its fields and its photographer's full name |
| PortfolioService.ProjectedRows | PhotoBooker.Application/Services/PortfolioService.cs:24-33 | projecting stored rows gives a DTO for each row, showing that stored portfolio |
| PortfolioService.GetAllPortfolios | PhotoBooker.Application/Services/PortfolioService.cs:20-34 | one DTO per stored portfolio and no other, each showing that portfolio and its photographer's name |
| PortfolioService.GetPhotographerPortfolios | PhotoBooker.Application/Services/PortfolioService.cs:36-50 | exactly the photographer's portfolios, each once, newest first, each shown as stored |
| PortfolioService.GetPortfolioById | PhotoBooker.Application/Services/PortfolioService.cs:52-69 | none exactly when the id is not stored; otherwise that portfolio's DTO |
| PortfolioService.DetailImages | PhotoBooker.Application/Services/PortfolioService.cs:87-95 | the images' DTOs, a permutation, in ascending display order |
| PortfolioService.DetailImagesDistinct | PhotoBooker.Application/Services/PortfolioService.cs:87-95 | images with distinct ids give image DTOs with distinct ids |
| PortfolioService.GetPortfolioWithImagesById | PhotoBooker.Application/Services/PortfolioService.cs:71-97 | none exactly when the id is not stored; otherwise the portfolio's fields, its photographer's name, and its images, each once, in ascending display order |
| PortfolioService.DetailImagesMembers | PhotoBooker.Application/Services/PortfolioService.cs:87-95 | an image DTO is shown exactly when it is the DTO of one of the images |
| PortfolioService.DetailShowsItsImages | PhotoBooker.Application/Services/PortfolioService.cs:71-97 | the detail view shows exactly the stored images of that portfolio |
| PortfolioService.DetailShowsAllItsImages | PhotoBooker.Application/Services/PortfolioService.cs:71-97 | the same for every image DTO at once |
| PortfolioService.DetailImagesStable | PhotoBooker.Application/Services/PortfolioService.cs:87-88 | images with the same display order keep the order they were read in |
| PortfolioService.Edited | PhotoBooker.Application/Services/PortfolioService.cs:148-150 | title, description and category are taken from the request; id, creation date and owner are kept |
| PortfolioService.CreatePortfolio | PhotoBooker.Application/Services/PortfolioService.cs:99-133 | no photographer fails with its message and changes nothing; otherwise the portfolio is stored under the next id, dated now, and returned with the owner's name |
| PortfolioService.EditKeepsOwners | PhotoBooker.Application/Services/PortfolioService.cs:148-153 | an edit that keeps the owner keeps every portfolio owned by a photographer |
| PortfolioService.UpdatePortfolio | PhotoBooker.Application/Services/PortfolioService.cs:135-165 | not found gives null; another owner fails with the not-owner message; otherwise only that portfolio's fields change, and its DTO is returned |
| PortfolioService.DeletePortfolio | PhotoBooker.Application/Services/PortfolioService.cs:167-184 | not found gives false; another owner fails; otherwise the portfolio and its images are removed and the result is true |
| PortfolioService.AddImageToPortfolio | PhotoBooker.Application/Services/PortfolioService.cs:186-217 | not found fails with a validation error; another owner fails; otherwise the image is stored under the next id and its DTO returned |
| PortfolioService.DeleteImageFromPortfolio | PhotoBooker.Application/Services/PortfolioService.cs:219-237 | not found gives false; an image of another owner fails; otherwise exactly that image is removed |
| PortfolioService.CreatedPortfolioReadsBack | PhotoBooker.Application/Services/PortfolioService.cs:99-133 | a created portfolio reads back by id as the DTO the creation returned |
| PortfolioService.UpdatedPortfolioReadsBack | PhotoBooker.Application/Services/PortfolioService.cs:135-165 | an updated portfolio reads back by id as the DTO the update returned |
| PortfolioService.DeletedPortfolioGone | PhotoBooker.Application/Services/PortfolioService.cs:167-184 | a deleted portfolio is gone from both the summary and the detail view |
| PortfolioService.AddedImageValid | PhotoBooker.Application/Services/PortfolioService.cs:201-210 | saving an image of a stored portfolio keeps the store valid |
| PortfolioService.AddedImageShown | PhotoBooker.Application/Services/PortfolioService.cs:186-217 | an added image shows in its portfolio's detail view |
| PortfolioService.DeletedImageGone | PhotoBooker.Application/Services/PortfolioService.cs:219-237 | a deleted image no longer shows in its portfolio's detail view |
| PortfoliosController.ParseUserId | PhotoBooker.API/Controllers/PortfoliosController.cs:51-56 | an id exactly when the NameIdentifier claim is present and parses as a 32-bit integer, and then that integer |
| PortfoliosController.IssuedTokenIdentifiesCaller | PhotoBooker.API/Controllers/PortfoliosController.cs:51-56 | the name-identifier claim of a token issued to a user parses back to that user's id |
| PortfoliosController.GetAllPortfolios | PhotoBooker.API/Controllers/PortfoliosController.cs:27-40 | 200 with every stored portfolio exactly once and nothing else, each showing its fields and its photographer's name |
| PortfoliosController.GetMyPortfolios | PhotoBooker.API/Controllers/PortfoliosController.cs:47-67 | 401 exactly when the caller has no usable id; otherwise 200 with exactly the caller's portfolios, each once and shown as stored, newest first |
| PortfoliosController.GetPhotographerPortfolios | PhotoBooker.API/Controllers/PortfoliosController.cs:72-85 | 200 with exactly that photographer's portfolios, each once and shown as stored, newest first |
| PortfoliosController.GetPortfolio | PhotoBooker.API/Controllers/PortfoliosController.cs:91-108 | 404 exactly when the id is not stored; otherwise 200 with the service's detail: that portfolio, and exactly its stored images, each once, in ascending display order |
| PortfoliosController.CreatePortfolio | PhotoBooker.API/Controllers/PortfoliosController.cs:116-143 | 401 without an id, 400 when the caller is no photographer, both with nothing changed; otherwise 201 with the stored portfolio |
| PortfoliosController.UpdateBodyNeedsTitle | PhotoBooker.Application/DTOs/Portfolios/UpdatePortfolioDto.cs:7-9 | an empty or blank title fails validation |
| PortfoliosController.UpdateBodyTitleLimit | PhotoBooker.Application/DTOs/Portfolios/UpdatePortfolioDto.cs:7-9 | a title of 100 characters passes validation and one of 101 does not |
| PortfoliosController.UpdatePortfolio | PhotoBooker.API/Controllers/PortfoliosController.cs:145-182 | an invalid body is 400 before anything else; then 401 without an id, 404 not found, 403 another owner, all with nothing changed; otherwise 200 with only that portfolio edited |
| PortfoliosController.DeletePortfolio | PhotoBooker.API/Controllers/PortfoliosController.cs:190-220 | 401, 404 or 403 with nothing changed; otherwise 204 with the portfolio and its images removed |
| PortfoliosController.GetExtension | PhotoBooker.API/Controllers/PortfoliosController.cs:246 | empty, or a suffix of the name that starts with its last dot and has no dot or slash after it |
| PortfoliosController.LastMark | PhotoBooker.API/Controllers/PortfoliosController.cs:246 | the position of the last dot or slash before a position (or -1): a dot or slash, with none after it |
| PortfoliosController.GetExtensionOf | PhotoBooker.API/Controllers/PortfoliosController.cs:246 | a name ending in a dot and a suffix without dots or slashes has that extension |
| PortfoliosController.CheckUpload | PhotoBooker.API/Controllers/PortfoliosController.cs:240-256 | accepted exactly when a non-empty file has a lower-cased extension of .jpg, .jpeg or .png and at most 20 MiB; otherwise the first failing check's message |
| PortfoliosController.UploadAcceptsUpperCaseAtLimit | PhotoBooker.API/Controllers/PortfoliosController.cs:245-256 | "Beach.JPG" of exactly 20 MiB is accepted as ".jpg" |
| PortfoliosController.UploadRefusesOverLimit | PhotoBooker.API/Controllers/PortfoliosController.cs:253-256 | one byte over 20 MiB is refused with the size message |
| PortfoliosController.UploadRefusesDotBeforeSlash | PhotoBooker.API/Controllers/PortfoliosController.cs:245-251 | a dot before the last slash gives no extension, so the file type is refused |
| PortfoliosController.UploadImage | PhotoBooker.API/Controllers/PortfoliosController.cs:229-292 | a missing file is the validation 400 before anything else; then 401 or 400 before any write; a file that passes the checks is written under the GUID name, then 400 not found, 403 another owner, or 201 with the image stored under the next id |
| PortfoliosController.DeleteImage | PhotoBooker.API/Controllers/PortfoliosController.cs:300-330 | 401 without an id, 404 not found, 403 another owner, all with nothing changed; otherwise 204 with exactly that image removed |
| CategoryHelper.GetCategoryName | PhotoBooker.Client/src/utils/categoryHelper.ts:3-30 | the name of each number 0..10, and "Other" for any other number |
| CategoryHelper.NamesMatchServer | PhotoBooker.Client/src/utils/categoryHelper.ts:3-30 | the client's name of a category's number is the server's enum name |
| CategoryHelper.NamesDistinct | PhotoBooker.Client/src/utils/categoryHelper.ts:4-26 | distinct category numbers get distinct names |
| PortfolioViewPage.StepInRange | PhotoBooker.Client/src/components/photographer/PortfolioViewPage.tsx:36-65 | one event from the page keeps the selection on an image and moves it by at most one, except opening |
| PortfolioViewPage.RunInRange | PhotoBooker.Client/src/components/photographer/PortfolioViewPage.tsx:36-65 | any run of page events keeps the selection on an image, so the shown image always exists |
| PortfolioViewPage.Step | PhotoBooker.Client/src/components/photographer/PortfolioViewPage.tsx:36-65 | the page's handlers as one transition per event; no contract of its own, its meaning in `StepInRange`, `KeysAreControls` and the `Lightbox` methods |
| PortfolioViewPage.Run | PhotoBooker.Client/src/components/photographer/PortfolioViewPage.tsx:36-65 | a run of events, one `Step` each; no contract of its own, its meaning in `RunInRange` |
| PortfolioViewPage.KeysAreControls | PhotoBooker.Client/src/components/photographer/PortfolioViewPage.tsx:57-65 | Escape closes keeping the selection; ArrowRight and ArrowLeft act as next and prev |
| PortfolioViewPage.ControlsShownIffTheyMove | PhotoBooker.Client/src/components/photographer/PortfolioViewPage.tsx:45-55 | the prev and next controls are shown exactly when pressing them would move the selection |
| PortfolioViewPage.CounterBounds | PhotoBooker.Client/src/components/photographer/PortfolioViewPage.tsx:164 | the counter runs from 1 to the image count and reaches the count only on the last image |
| PortfolioViewPage.Lightbox.constructor | PhotoBooker.Client/src/components/photographer/PortfolioViewPage.tsx:13-14 | the first image is selected and the lightbox closed |
| PortfolioViewPage.Lightbox.OpenLightbox | PhotoBooker.Client/src/components/photographer/PortfolioViewPage.tsx:36-39 | selects the image and opens |
| PortfolioViewPage.Lightbox.CloseLightbox | PhotoBooker.Client/src/components/photographer/PortfolioViewPage.tsx:41-43 | closes and keeps the selection |
| PortfolioViewPage.Lightbox.NextImage | PhotoBooker.Client/src/components/photographer/PortfolioViewPage.tsx:45-49 | one forward only when a portfolio is loaded and this is not its last image; otherwise unchanged |
| PortfolioViewPage.Lightbox.PrevImage | PhotoBooker.Client/src/components/photographer/PortfolioViewPage.tsx:51-55 | one back only when this is not the first image; otherwise unchanged |
| PortfolioViewPage.Lightbox.HandleKeyDown | PhotoBooker.Client/src/components/photographer/PortfolioViewPage.tsx:57-65 | the key's step, which keeps a selection that was on an image on an image |
| RegisterForm.Validate | PhotoBooker.Client/src/components/auth/Register.tsx:38-48 | the form may be sent exactly when the username has at least 3 and the password at least 6 code units; otherwise the username's message first |
| RegisterForm.ValidateCountsCodeUnits | PhotoBooker.Client/src/components/auth/Register.tsx:38-42 | two emoji pass the username check and two letters do not |
| RegisterForm.Changed | PhotoBooker.Client/src/components/auth/Register.tsx:23-30 | only the named field changes; the role is parsed with `parseInt` |
| RegisterForm.RoleOptionsParse | PhotoBooker.Client/src/components/auth/Register.tsx:130-131 | choosing either role option stores that role's number |
| RegisterForm.RegisterForm.constructor | PhotoBooker.Client/src/components/auth/Register.tsx:13-21 | empty fields, the Client role, no error, not loading |
| RegisterForm.RegisterForm.HandleChange | PhotoBooker.Client/src/components/auth/Register.tsx:23-30 | the form data becomes the changed form, and the error is cleared |
| RegisterForm.RegisterForm.HandleSubmit | PhotoBooker.Client/src/components/auth/Register.tsx:32-50 | a failed check shows its message, clears loading and sends nothing; otherwise the form data is sent and loading stays set |
| RegisterForm.RegisterForm.Settle | PhotoBooker.Client/src/components/auth/Register.tsx:50-57 | success calls onSuccess; a rejection shows its message or the fixed one; loading is cleared either way |
| Http.StatusCode | PhotoBooker.API/Controllers/PortfoliosController.cs:277-291 | every result has a status in 200..599, and a success status exactly for 200, 201 and 204 |

## Left out

- BCrypt hashing and verification are parameters (`PasswordHasher`). `AuthService.LoginAfterRegister` assumes `Sound`, that a password verifies against its own hash, because BCrypt is not part of this model.
- JWT signing, serialisation and validation are left out. The token is its unsigned claims record, and the API never validates it, because authentication is by cookie.
- The `[Authorize]` attributes and the role filters are left out. The caller's claims are a parameter of each action, and `Forbid()` gives status 403 instead of the cookie scheme's redirect to the access-denied path.
- File I/O, the working directory and `Guid.NewGuid()` are left out. The GUID is a parameter, and the written file name is the `written` result of `PortfoliosController.UploadImage`. The URL's host is the source's constant.
- `DateTime.UtcNow` is a parameter (`now`), in whole seconds, read once per request. `AuthService.Register` reads the clock twice, for the user's `CreatedAt` and for the token's expiry; the model uses one reading for both, so the expiry is exactly seven days after the creation time rather than at least that.
- Asynchronous execution, EF change tracking and concurrent requests are left out. This includes the race between the username check and the insert, which the unique index settles at commit.
- Logging is left out, because it changes no state or response.
- Database reads never fail in the model. The 500 responses of the read-only actions and their messages are therefore not modelled. A failed `SaveChanges` is modelled.
- A registered user's `Role` acts as the table-per-hierarchy discriminator: the model stores a user row with the requested role. The EF materialisation of `Photographer` and `Client` subclasses is reduced to that role.
- The booking side (packages, availabilities, booking requests, shootings, shooting categories) is reduced to its keys and delete rules. No operation of the core uses it.
- `PhotographersController`, the `PhotoBooker.Server` project, the Swagger filter and the other client pages are not part of this model.
- React rendering, data loading and routing are left out. The lightbox and the registration form are modelled as their state and handlers.
- JavaScript numbers are integers in the model, and `NaN` is `None`.
- An enum value outside its declared members cannot be stored, because the enums are datatypes.
- `Text.ToLowerAscii`: lowers only ASCII letters, while `ToLowerInvariant` also lowers other scripts. Only ASCII extensions are allowed, but a non-ASCII capital that lowers to an allowed extension is not modelled.
- `PortfoliosController.GetExtension`: treats only '/' as a directory separator, as on Linux. On Windows, '\\' is one too.
- `PortfolioRepository.GetByPhotographerId`: states newest first, but not the order among portfolios created at the same second, which SQL leaves to the database.
- `AppDbContext.Rows`: the order of a table scan is this model's choice (ascending key). The queries of the repositories have no `ORDER BY`, and the source promises no order.
- `PortfoliosController.UpdatePortfolio`: the 400 of model validation carries only its title, not the per-field ProblemDetails errors. Model validation of `CreatePortfolioDto`, `RegisterDto` and `LoginDto` is not modelled: those files are not part of this model. Authorization, which runs before validation, is left out as above.
- `PortfoliosController.UploadImage`: assumes that nullable reference types are enabled in the API project, as in the rest of the solution, so that the missing file is refused by model validation. The API project file is not part of this model. With them disabled, a missing file would reach the action as null and get 401 or "No file uploaded", which `CheckUpload` still models.
- `AuthController.GetCurrentUser` has no contract of its own. What it returns for issued tokens is `AuthController.CurrentUserOfIssuedToken`, and the lookup is `Claims.FindFirstMeaning`.
- The `UserRole` enum of the server is not part of this model. Its values are taken from the EF discriminator mapping and from the client's `auth.ts`.
