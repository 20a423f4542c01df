/**
 * The entities, enums and data-transfer records of the photography marketplace. Timestamps
 * are whole seconds; ids are the integer keys the database assigns.
 */
module Domain {
  import opened Wrappers

  type Timestamp = int

  /** `UserRole`: the discriminator of the single users table. */
  datatype UserRole = Unspecified | Photographer | Client

  /** The enum's numeric value, as serialized to and from the client. */
  function RoleValue(r: UserRole): (v: int)
    ensures 0 <= v <= 2
  {
    match r
    case Unspecified => 0
    case Photographer => 1
    case Client => 2
  }

  /** `UserRole.ToString()`: the name of the enum member. */
  function RoleName(r: UserRole): string
  {
    match r
    case Unspecified => "Unspecified"
    case Photographer => "Photographer"
    case Client => "Client"
  }

  lemma RoleNameInjective(a: UserRole, b: UserRole)
    ensures RoleName(a) == RoleName(b) <==> a == b
    ensures RoleValue(a) == RoleValue(b) <==> a == b
  {
  }

  /** `PortfolioCategory`, eleven members numbered 0 to 10. */
  datatype PortfolioCategory =
    | Portraits | Outdoors | Products | Wedding | Events | Fashion
    | Architecture | Wildlife | Sports | Food | Other

  function CategoryValue(c: PortfolioCategory): (v: int)
    ensures 0 <= v <= 10
  {
    match c
    case Portraits => 0
    case Outdoors => 1
    case Products => 2
    case Wedding => 3
    case Events => 4
    case Fashion => 5
    case Architecture => 6
    case Wildlife => 7
    case Sports => 8
    case Food => 9
    case Other => 10
  }

  /** `PortfolioCategory.ToString()`: the name of the enum member. */
  function CategoryName(c: PortfolioCategory): string
  {
    match c
    case Portraits => "Portraits"
    case Outdoors => "Outdoors"
    case Products => "Products"
    case Wedding => "Wedding"
    case Events => "Events"
    case Fashion => "Fashion"
    case Architecture => "Architecture"
    case Wildlife => "Wildlife"
    case Sports => "Sports"
    case Food => "Food"
    case Other => "Other"
  }

  /** The member with a numeric value, if any (a cast that is then range-checked). */
  function CategoryOfValue(v: int): (r: Option<PortfolioCategory>)
    ensures r.Some? <==> 0 <= v <= 10
    ensures r.Some? ==> CategoryValue(r.value) == v
  {
    if v == 0 then Some(Portraits)
    else if v == 1 then Some(Outdoors)
    else if v == 2 then Some(Products)
    else if v == 3 then Some(Wedding)
    else if v == 4 then Some(Events)
    else if v == 5 then Some(Fashion)
    else if v == 6 then Some(Architecture)
    else if v == 7 then Some(Wildlife)
    else if v == 8 then Some(Sports)
    else if v == 9 then Some(Food)
    else if v == 10 then Some(Other)
    else None
  }

  lemma CategoryValueRoundTrip(c: PortfolioCategory)
    ensures CategoryOfValue(CategoryValue(c)) == Some(c)
  {
  }

  /**
   * A row of the users table. `User`, `Photographer` and `Client` share it (table per
   * hierarchy); `bio` is the column only `Photographer` maps.
   */
  datatype User = User(
    id: int,
    username: string,
    passwordHash: string,
    firstName: string,
    lastName: string,
    role: UserRole,
    createdAt: Timestamp,
    bio: Option<string>)

  datatype Portfolio = Portfolio(
    id: int,
    title: string,
    description: string,
    category: PortfolioCategory,
    createdDate: Timestamp,
    photographerId: int)

  datatype PortfolioImage = PortfolioImage(
    id: int,
    imageUrl: string,
    displayOrder: int,
    portfolioId: int)

  /** The booking-side entities, reduced to their keys: only their delete rules are modelled. */
  datatype Package = Package(id: int, photographerId: int, shootingCategoryId: int)
  datatype Availability = Availability(id: int, photographerId: int)
  datatype BookingRequest = BookingRequest(id: int, clientId: int, photographerId: int, packageId: int)
  datatype Shooting = Shooting(id: int, clientId: int, photographerId: int, packageId: int)

  /** Why the database refuses a `SaveChanges`: a row to change is gone, or a constraint fails. */
  datatype DbError = ConcurrencyConflict | UniqueConstraintFailed | ForeignKeyConstraintFailed

  /** The exceptions the services throw and the controllers catch. */
  datatype Exception =
    | InvalidOperation(message: string)
    | UnauthorizedAccess(message: string)
    | DbUpdate(reason: DbError)

  // Data-transfer records

  datatype PortfolioDto = PortfolioDto(
    id: int,
    title: string,
    description: string,
    category: PortfolioCategory,
    createdDate: Timestamp,
    photographerId: int,
    photographerName: string)

  datatype PortfolioImageDto = PortfolioImageDto(id: int, imageUrl: string, displayOrder: int)

  datatype PortfolioWithImagesDto = PortfolioWithImagesDto(
    id: int,
    title: string,
    description: string,
    category: PortfolioCategory,
    createdDate: Timestamp,
    photographerId: int,
    photographerName: string,
    images: seq<PortfolioImageDto>)

  datatype CreatePortfolioDto = CreatePortfolioDto(title: string, description: string, category: PortfolioCategory)
  datatype UpdatePortfolioDto = UpdatePortfolioDto(title: string, description: string, category: PortfolioCategory)

  datatype PhotographerDto = PhotographerDto(
    id: int,
    username: string,
    firstName: string,
    lastName: string,
    bio: Option<string>,
    createdAt: Timestamp)

  datatype UpdatePhotographerDto = UpdatePhotographerDto(bio: Option<string>)

  datatype RegisterDto = RegisterDto(
    username: string,
    password: string,
    firstName: string,
    lastName: string,
    role: UserRole)

  datatype LoginDto = LoginDto(username: string, password: string)

  /** `$"{FirstName} {LastName}"`, the display name the portfolio projections carry. */
  function FullName(u: User): string
  {
    u.firstName + " " + u.lastName
  }
}
