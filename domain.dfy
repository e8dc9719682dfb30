/** The values the services exchange: the enumerations the database stores as strings, the rows of
    its tables, JavaScript request values, and the errors the services throw. */
module Domain {
  import opened Strings

  // ---------------------------------------------------------------- wrappers

  datatype Option<T> = None | Some(value: T) {
    function GetOr(default: T): T {
      if Some? then value else default
    }
  }

  /** A request-body field that may be missing (`undefined`), `null`, or carry a value. */
  datatype Field<T> = Absent | Null | Present(value: T)

  /** A JavaScript value, as far as `Boolean(v)` is concerned. */
  datatype JsValue = JsBool(b: bool) | JsString(s: string) | JsNumber(n: int) | JsNull

  /** JavaScript `Boolean(v)`: note that the string "false" is true. */
  function ToBoolean(v: JsValue): bool {
    match v
    case JsBool(b) => b
    case JsString(s) => s != ""
    case JsNumber(n) => n != 0
    case JsNull => false
  }

  /** A string field in a truthy position (`if (x)`, `x && ...`): present and not empty. */
  predicate Truthy(x: Option<string>) {
    x.Some? && x.value != ""
  }

  /** `x || fallback` for a string field. */
  function OrElse(x: Option<string>, fallback: string): (r: string)
    ensures Truthy(x) ==> r == x.value
    ensures !Truthy(x) ==> r == fallback
  {
    if Truthy(x) then x.value else fallback
  }

  // ---------------------------------------------------------------- enumerations

  datatype ContentType = POST | REEL
  datatype Status = DRAFT | SCHEDULED | PUBLISHED
  datatype Plan = BASIC | STANDARD | FULL
  datatype Role = ADMIN | CLIENTE

  const ValidContentTypes: seq<string> := ["POST", "REEL"]
  const ValidStatuses: seq<string> := ["DRAFT", "SCHEDULED", "PUBLISHED"]
  const ValidPlans: seq<string> := ["BASIC", "STANDARD", "FULL"]
  const ValidRoles: seq<string> := ["ADMIN", "CLIENTE"]

  function ContentTypeName(t: ContentType): string {
    match t
    case POST => "POST"
    case REEL => "REEL"
  }

  function StatusName(s: Status): string {
    match s
    case DRAFT => "DRAFT"
    case SCHEDULED => "SCHEDULED"
    case PUBLISHED => "PUBLISHED"
  }

  function PlanName(p: Plan): string {
    match p
    case BASIC => "BASIC"
    case STANDARD => "STANDARD"
    case FULL => "FULL"
  }

  function RoleName(r: Role): string {
    match r
    case ADMIN => "ADMIN"
    case CLIENTE => "CLIENTE"
  }

  /** `VALID_CONTENT_TYPES.includes(s)`, giving the value it names. */
  function ParseContentType(s: string): (r: Option<ContentType>)
    ensures r.Some? <==> s in ValidContentTypes
    ensures forall t :: r == Some(t) <==> s == ContentTypeName(t)
  {
    if s == "POST" then Some(POST) else if s == "REEL" then Some(REEL) else None
  }

  /** `VALID_STATUSES.includes(s)`, giving the value it names. */
  function ParseStatus(s: string): (r: Option<Status>)
    ensures r.Some? <==> s in ValidStatuses
    ensures forall t :: r == Some(t) <==> s == StatusName(t)
  {
    if s == "DRAFT" then Some(DRAFT)
    else if s == "SCHEDULED" then Some(SCHEDULED)
    else if s == "PUBLISHED" then Some(PUBLISHED)
    else None
  }

  /** `VALID_PLANS.includes(s)`, giving the value it names. */
  function ParsePlan(s: string): (r: Option<Plan>)
    ensures r.Some? <==> s in ValidPlans
    ensures forall t :: r == Some(t) <==> s == PlanName(t)
  {
    if s == "BASIC" then Some(BASIC)
    else if s == "STANDARD" then Some(STANDARD)
    else if s == "FULL" then Some(FULL)
    else None
  }

  /** `VALID_ROLES.includes(s)`, giving the value it names. */
  function ParseRole(s: string): (r: Option<Role>)
    ensures r.Some? <==> s in ValidRoles
    ensures forall t :: r == Some(t) <==> s == RoleName(t)
  {
    if s == "ADMIN" then Some(ADMIN) else if s == "CLIENTE" then Some(CLIENTE) else None
  }

  // ---------------------------------------------------------------- media types

  const ImageTypes: seq<string> := ["image/jpeg", "image/png", "image/webp", "image/jpg"]
  const VideoTypes: seq<string> := ["video/mp4", "video/webm"]

  /** The MIME list a publication of type `t` takes: videos for a REEL, images for a POST. */
  function AcceptedTypes(t: ContentType): seq<string> {
    if t == REEL then VideoTypes else ImageTypes
  }

  /** No listed MIME type has an upper-case letter, so lower-casing leaves each one unchanged. */
  lemma AcceptedTypesAreLowerCase(t: ContentType, mime: string)
    requires mime in AcceptedTypes(t)
    ensures ToLower(mime) == mime
  {
    ToLowerOfLower(mime);
  }

  /** The MIME list of one content type shares no entry with the other's. */
  lemma FamiliesDisjoint(mime: string)
    ensures !(mime in ImageTypes && mime in VideoTypes)
  {
  }

  // ---------------------------------------------------------------- rows

  datatype Publication = Publication(
    clientId: int, title: string, contentType: ContentType, status: Status, publishDate: int)

  datatype Media = Media(publicationId: int, mediaType: string, url: string)

  datatype Client = Client(
    userId: int, companyName: string, ruc: string, contactEmail: string, contactPhone: string,
    plan: Plan, active: bool)

  /** `password` stands for the stored bcrypt hash of the password given. */
  datatype User = User(email: string, password: string, role: Role, name: string)

  datatype CalendarNote = CalendarNote(
    userId: int, title: string, description: Option<string>, noteDate: int, isEvent: bool)

  // ---------------------------------------------------------------- errors

  /** What a service throws. */
  datatype Error =
    | Thrown(message: string)                      // new Error(message)
    | KnownRequest(code: string, detail: string)   // Prisma.PrismaClientKnownRequestError
    | InvalidQuery                                 // Prisma.PrismaClientValidationError
    | ConnectionFailure                            // Prisma.PrismaClientInitializationError

  datatype Result<T> = Ok(value: T) | Err(error: Error)

  // ---------------------------------------------------------------- stored files

  /** The name under `uploads/` of a stored media url: a leading "/uploads/" is dropped,
      else a leading "uploads/", else one leading "/". */
  function UploadFileName(url: string): (name: string)
    ensures |name| <= |url| && name == url[|url| - |name|..]
  {
    if "/uploads/" <= url then url[9..]
    else if "uploads/" <= url then url[8..]
    else if "/" <= url then url[1..]
    else url
  }

  /** Each of the three url forms the code accepts names the same stored file. */
  lemma UploadFileNameForms(name: string)
    requires !("/" <= name) && !("uploads/" <= name)
    ensures UploadFileName("/uploads/" + name) == name
    ensures UploadFileName("uploads/" + name) == name
    ensures UploadFileName("/" + name) == name
    ensures UploadFileName(name) == name
  {
    var full := "/uploads/" + name;
    assert "/uploads/" <= full && full[9..] == name;
    RelativeForm(name);
    SlashedForm(name);
    BareForm(name);
  }

  lemma BareForm(name: string)
    requires !("/" <= name) && !("uploads/" <= name)
    ensures UploadFileName(name) == name
  {
    if |name| > 0 {
      assert name[..1] == [name[0]];
      assert name[0] != '/';
    }
  }

  lemma RelativeForm(name: string)
    ensures UploadFileName("uploads/" + name) == name
  {
    var rel := "uploads/" + name;
    assert rel[0] == 'u';
    assert !("/uploads/" <= rel);
    assert "uploads/" <= rel && rel[8..] == name;
  }

  lemma SlashedForm(name: string)
    requires !("uploads/" <= name)
    ensures UploadFileName("/" + name) == name
  {
    var slashed := "/" + name;
    assert "/" <= slashed && slashed[1..] == name;
    assert slashed[0] == '/' && !("uploads/" <= slashed);
    if |name| >= 8 {
      assert name[..8] != "uploads/";
      assert exists k :: 0 <= k < 8 && name[..8][k] != "uploads/"[k];
      var k :| 0 <= k < 8 && name[..8][k] != "uploads/"[k];
      assert slashed[k + 1] == name[k] && "/uploads/"[k + 1] == "uploads/"[k];
    }
  }
}
