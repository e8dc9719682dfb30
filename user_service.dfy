/** The user administration service: creation (alone or together with a client row), lookup,
    partial updates with the role-change cascade, and deletion with the removal of the user's
    stored files. Passwords are stored as given; hashing is outside the model. */
module UserService {
  import opened Domain
  import opened Store
  import ClientService

  const RequiredFieldsMessage := "Email, contraseña, rol y nombre son requeridos"
  const ClientRequiredFieldsMessage := "Email, contraseña, nombre y nombre de compañía son requeridos"
  const BadRoleMessage := "Rol no válido. Use ADMIN o CLIENTE"
  const EmailRegisteredMessage := "El email ya está registrado"
  const BadIdMessage := "ID inválido"
  const UserMissingMessage := "Usuario no encontrado"

  /** Whether any user already has `email` (ids start at 1, so no row has id 0). */
  predicate EmailInUse(users: map<int, User>, email: string) {
    EmailTaken(users, email, 0)
  }

  // ---------------------------------------------------------------- createUser

  datatype UserInput = UserInput(email: Option<string>, password: Option<string>, role: Option<string>, name: Option<string>)

  predicate HasRequiredFields(input: UserInput) {
    Truthy(input.email) && Truthy(input.password) && Truthy(input.role) && Truthy(input.name)
  }

  /** `createUser`: all four fields are required and the role must be ADMIN or CLIENTE; a taken
      email (P2002) is reported as already registered. */
  method CreateUser(db: Database, input: UserInput) returns (r: Result<int>)
    requires db.Valid()
    modifies db
    ensures db.Valid()
    ensures !HasRequiredFields(input) ==> r == Err(Thrown(RequiredFieldsMessage))
    ensures HasRequiredFields(input) && ParseRole(input.role.value).None? ==> r == Err(Thrown(BadRoleMessage))
    ensures HasRequiredFields(input) && ParseRole(input.role.value).Some? && EmailInUse(old(db.users), input.email.value)
            ==> r == Err(Thrown(EmailRegisteredMessage))
    ensures r.Ok? <==>
      && HasRequiredFields(input) && ParseRole(input.role.value).Some?
      && !EmailInUse(old(db.users), input.email.value)
    ensures r.Err? ==> unchanged(db)
    ensures r.Ok? ==>
      && r.value !in old(db.users)
      && db.users == old(db.users)[r.value :=
           User(input.email.value, input.password.value, ParseRole(input.role.value).value, input.name.value)]
      && db.publications == old(db.publications) && db.media == old(db.media) && db.clients == old(db.clients)
      && db.notes == old(db.notes) && db.files == old(db.files)
  {
    if !HasRequiredFields(input) {
      return Err(Thrown(RequiredFieldsMessage));
    }
    var role := ParseRole(input.role.value);
    if role.None? {
      return Err(Thrown(BadRoleMessage));
    }
    if EmailInUse(db.users, input.email.value) {
      return Err(Thrown(EmailRegisteredMessage));
    }
    var id := db.InsertUser(User(input.email.value, input.password.value, role.value, input.name.value));
    r := Ok(id);
  }

  // ---------------------------------------------------------------- getUserById

  /** `getUserById`; `id` is `Number(id)`, `None` when that is NaN. */
  function GetUserById(users: map<int, User>, id: Option<int>): (r: Result<User>)
    ensures id.None? ==> r == Err(Thrown(BadIdMessage))
    ensures id.Some? && id.value !in users ==> r == Err(Thrown(UserMissingMessage))
    ensures r.Ok? <==> id.Some? && id.value in users
    ensures r.Ok? ==> r.value == users[id.value]
  {
    if id.None? then Err(Thrown(BadIdMessage))
    else if id.value !in users then Err(Thrown(UserMissingMessage))
    else Ok(users[id.value])
  }

  /** A user just written under `uid` is what the lookup of `uid` returns. */
  lemma FoundAfterWrite(users: map<int, User>, uid: int, u: User)
    ensures GetUserById(users[uid := u], Some(uid)) == Ok(u)
  {
  }

  // ---------------------------------------------------------------- updateUser

  datatype UserUpdate = UserUpdate(email: Option<string>, password: Option<string>, role: Option<string>, name: Option<string>)

  /** The service's own role check, which only looks at a truthy role. */
  predicate RejectsRole(role: Option<string>) {
    Truthy(role) && ParseRole(role.value).None?
  }

  /** The row `prisma.users.update` writes: email, role and name when not undefined, the password
      only when truthy; a role naming no member (only the empty string gets past `RejectsRole`)
      fails the query validation. */
  function PatchUser(u: User, upd: UserUpdate): (r: Result<User>)
    ensures r.Err? <==> upd.role.Some? && ParseRole(upd.role.value).None?
    ensures r.Err? ==> r.error == InvalidQuery
    ensures r.Ok? ==> r.value.password == (if Truthy(upd.password) then upd.password.value else u.password)
    ensures r.Ok? && upd.role.Some? ==> RoleName(r.value.role) == upd.role.value
    ensures r.Ok? && upd.role.None? ==> r.value.role == u.role
  {
    var role := if upd.role.Some? then ParseRole(upd.role.value) else Some(u.role);
    if role.None? then Err(InvalidQuery)
    else Ok(User(upd.email.GetOr(u.email),
                 if Truthy(upd.password) then upd.password.value else u.password,
                 role.value,
                 upd.name.GetOr(u.name)))
  }

  /** An update with every field undefined, or with an empty password only, keeps the user. */
  lemma PatchUserNothing(u: User, password: Option<string>)
    requires !Truthy(password)
    ensures PatchUser(u, UserUpdate(None, password, None, None)) == Ok(u)
  {
  }

  /** Whether `updateUser` deletes the user's client rows: the stored role was CLIENTE and a truthy
      role other than CLIENTE is supplied. */
  predicate DropsClientRows(old_role: Role, role: Option<string>) {
    old_role == CLIENTE && Truthy(role) && role.value != "CLIENTE"
  }

  /** Only a change from CLIENTE to ADMIN removes client rows. */
  lemma DropsOnlyOnDemotion(old_role: Role, role: Option<string>)
    requires !RejectsRole(role)
    ensures DropsClientRows(old_role, role) <==> old_role == CLIENTE && role == Some("ADMIN")
  {
  }

  /** `updateUser`: id and role checks, then in one transaction the existence check, the update and,
      when the user stops being CLIENTE, the deletion of its client rows. */
  method UpdateUser(db: Database, id: Option<int>, upd: UserUpdate) returns (r: Result<User>)
    requires db.Valid()
    modifies db
    ensures db.Valid()
    ensures db.notes == old(db.notes) && db.files == old(db.files)
    ensures id.None? ==> r == Err(Thrown(BadIdMessage))
    ensures id.Some? && RejectsRole(upd.role) ==> r == Err(Thrown(BadRoleMessage))
    ensures id.Some? && !RejectsRole(upd.role) && id.value !in old(db.users) ==> r == Err(Thrown(UserMissingMessage))
    ensures r.Err? ==> unchanged(db)
    ensures r.Ok? <==>
      && id.Some? && id.value in old(db.users)
      && PatchUser(old(db.users)[id.value], upd).Ok?
      && !EmailTaken(old(db.users), PatchUser(old(db.users)[id.value], upd).value.email, id.value)
    ensures r == Err(Thrown(EmailRegisteredMessage)) <==>
      && id.Some? && id.value in old(db.users)
      && PatchUser(old(db.users)[id.value], upd).Ok?
      && EmailTaken(old(db.users), PatchUser(old(db.users)[id.value], upd).value.email, id.value)
    ensures r.Ok? ==>
      var uid := id.value;
      && Ok(r.value) == PatchUser(old(db.users)[uid], upd)
      && db.users == old(db.users)[uid := r.value]
      && (DropsClientRows(old(db.users)[uid].role, upd.role) ==>
            && db.clients == old(db.clients) - ClientsOfUser(old(db.clients), uid)
            && db.publications == old(db.publications)
                 - PublicationsOfClients(old(db.publications), ClientsOfUser(old(db.clients), uid))
            && db.media == old(db.media) - MediaOfPublications(old(db.media),
                 PublicationsOfClients(old(db.publications), ClientsOfUser(old(db.clients), uid))))
      && (!DropsClientRows(old(db.users)[uid].role, upd.role) ==>
            db.clients == old(db.clients) && db.publications == old(db.publications) && db.media == old(db.media))
  {
    if id.None? {
      return Err(Thrown(BadIdMessage));
    }
    if RejectsRole(upd.role) {
      return Err(Thrown(BadRoleMessage));
    }
    var uid := id.value;
    if uid !in db.users {
      return Err(Thrown(UserMissingMessage));
    }
    var existing := db.users[uid];
    var patched := PatchUser(existing, upd);
    if patched.Err? {
      return Err(InvalidQuery);
    }
    if EmailTaken(db.users, patched.value.email, uid) {
      return Err(Thrown(EmailRegisteredMessage));
    }
    db.UpdateUserRow(uid, patched.value);
    if DropsClientRows(existing.role, upd.role) {
      db.DeleteClients(ClientsOfUser(db.clients, uid));
    }
    r := Ok(patched.value);
  }

  // ---------------------------------------------------------------- client rows created with a user

  /** The client row created for user `uid` when none exists: the defaults are an empty company
      name, RUC and phone, the request's email as contact email, the BASIC plan and an active
      status unless a status is supplied. */
  function NewClientRow(uid: int, email: Option<string>, upd: ClientService.ClientUpdate): (c: Client)
    requires !ClientService.RejectsPlan(upd.plan)
    ensures c.userId == uid
    ensures !Truthy(upd.plan) ==> c.plan == BASIC
    ensures Truthy(upd.plan) ==> PlanName(c.plan) == upd.plan.value
    ensures Truthy(upd.contactEmail) ==> c.contactEmail == upd.contactEmail.value
    ensures !Truthy(upd.contactEmail) ==> c.contactEmail == OrElse(email, "")
    ensures upd.status.None? ==> c.active
    ensures upd.status.Some? ==> c.active == ToBoolean(upd.status.value)
  {
    var plan := ParsePlan(OrElse(upd.plan, "BASIC"));
    assert plan.Some?;
    Client(uid, OrElse(upd.companyName, ""), OrElse(upd.ruc, ""),
           OrElse(upd.contactEmail, OrElse(email, "")), OrElse(upd.contactPhone, ""),
           plan.value,
           if upd.status.Some? then ToBoolean(upd.status.value) else true)
  }

  // ---------------------------------------------------------------- createUserWithClient

  datatype ClientUserInput = ClientUserInput(
    email: Option<string>, password: Option<string>, name: Option<string>,
    companyName: Option<string>, ruc: Option<string>, contactEmail: Option<string>,
    contactPhone: Option<string>, plan: Option<string>)

  predicate HasClientRequiredFields(input: ClientUserInput) {
    Truthy(input.email) && Truthy(input.password) && Truthy(input.name) && Truthy(input.companyName)
  }

  /** The client fields of the creation request, as an update with no status. */
  function ClientFieldsOf(input: ClientUserInput): ClientService.ClientUpdate {
    ClientService.ClientUpdate(input.companyName, input.ruc, input.contactEmail, input.contactPhone, None, input.plan)
  }

  /** `createUserWithClient`: a CLIENTE user and its client row, created together or not at all. */
  method CreateUserWithClient(db: Database, input: ClientUserInput) returns (r: Result<(int, int)>)
    requires db.Valid()
    modifies db
    ensures db.Valid()
    ensures !HasClientRequiredFields(input) ==> r == Err(Thrown(ClientRequiredFieldsMessage))
    ensures HasClientRequiredFields(input) && ClientService.RejectsPlan(input.plan) ==> r == Err(Thrown(ClientService.BadPlanMessage))
    ensures HasClientRequiredFields(input) && !ClientService.RejectsPlan(input.plan) && EmailInUse(old(db.users), input.email.value)
            ==> r == Err(Thrown(EmailRegisteredMessage))
    ensures r.Ok? <==>
      HasClientRequiredFields(input) && !ClientService.RejectsPlan(input.plan) && !EmailInUse(old(db.users), input.email.value)
    ensures r.Err? ==> unchanged(db)
    ensures r.Ok? ==>
      var (uid, cid) := r.value;
      && uid !in old(db.users) && cid !in old(db.clients)
      && db.users == old(db.users)[uid := User(input.email.value, input.password.value, CLIENTE, input.name.value)]
      && db.clients == old(db.clients)[cid := NewClientRow(uid, input.email, ClientFieldsOf(input))]
      && db.publications == old(db.publications) && db.media == old(db.media)
      && db.notes == old(db.notes) && db.files == old(db.files)
  {
    if !HasClientRequiredFields(input) {
      return Err(Thrown(ClientRequiredFieldsMessage));
    }
    if ClientService.RejectsPlan(input.plan) {
      return Err(Thrown(ClientService.BadPlanMessage));
    }
    if EmailInUse(db.users, input.email.value) {
      return Err(Thrown(EmailRegisteredMessage));
    }
    var uid := db.InsertUser(User(input.email.value, input.password.value, CLIENTE, input.name.value));
    var cid := db.InsertClient(NewClientRow(uid, input.email, ClientFieldsOf(input)));
    r := Ok((uid, cid));
  }

  /** The client row created with a user carries the user's email as contact email unless one is
      given, the BASIC plan unless one is given, and an active status. */
  lemma CreatedClientDefaults(uid: int, input: ClientUserInput)
    requires HasClientRequiredFields(input) && !ClientService.RejectsPlan(input.plan)
    ensures var c := NewClientRow(uid, input.email, ClientFieldsOf(input));
      && c.companyName == input.companyName.value
      && c.contactEmail == (if Truthy(input.contactEmail) then input.contactEmail.value else input.email.value)
      && c.ruc == OrElse(input.ruc, "") && c.contactPhone == OrElse(input.contactPhone, "")
      && (!Truthy(input.plan) ==> c.plan == BASIC)
      && c.active
  {
  }

  // ---------------------------------------------------------------- updateUserWithClient

  datatype ClientUserUpdate = ClientUserUpdate(
    email: Option<string>, password: Option<string>, name: Option<string>, client: ClientService.ClientUpdate)

  /** The user row `updateUserWithClient` writes: email and name when not undefined, the password
      when truthy, and the role forced to CLIENTE. */
  function UserWithClientRow(u: User, upd: ClientUserUpdate): (r: User)
    ensures r.role == CLIENTE
    ensures r.password == (if Truthy(upd.password) then upd.password.value else u.password)
    ensures upd.email.None? ==> r.email == u.email
    ensures upd.name.None? ==> r.name == u.name
  {
    User(upd.email.GetOr(u.email), if Truthy(upd.password) then upd.password.value else u.password,
         CLIENTE, upd.name.GetOr(u.name))
  }

  /** `updateUserWithClient`: in one transaction, the user update (role forced to CLIENTE), then the
      update of its client row with the supplied fields, or the creation of one with defaults. */
  method UpdateUserWithClient(db: Database, id: Option<int>, upd: ClientUserUpdate) returns (r: Result<User>)
    requires db.Valid()
    modifies db
    ensures db.Valid()
    ensures db.publications == old(db.publications) && db.media == old(db.media)
    ensures db.notes == old(db.notes) && db.files == old(db.files)
    ensures id.None? ==> r == Err(Thrown(BadIdMessage))
    ensures id.Some? && ClientService.RejectsPlan(upd.client.plan) ==> r == Err(Thrown(ClientService.BadPlanMessage))
    ensures id.Some? && !ClientService.RejectsPlan(upd.client.plan) && id.value !in old(db.users)
            ==> r == Err(Thrown(UserMissingMessage))
    ensures id.Some? && !ClientService.RejectsPlan(upd.client.plan) && id.value in old(db.users)
            && EmailTaken(old(db.users), UserWithClientRow(old(db.users)[id.value], upd).email, id.value)
            ==> r == Err(Thrown(EmailRegisteredMessage))
    ensures r.Err? ==> unchanged(db)
    ensures r.Ok? ==>
      var uid := id.value;
      && uid in old(db.users)
      && r.value == UserWithClientRow(old(db.users)[uid], upd)
      && db.users == old(db.users)[uid := r.value]
      && (ClientsOfUser(old(db.clients), uid) != {} ==>
            exists cid :: cid in old(db.clients) && old(db.clients)[cid].userId == uid
              && ClientService.PatchClient(old(db.clients)[cid], upd.client).Ok?
              && db.clients == old(db.clients)[cid := ClientService.PatchClient(old(db.clients)[cid], upd.client).value])
      && (ClientsOfUser(old(db.clients), uid) == {} ==>
            exists cid :: cid !in old(db.clients)
              && db.clients == old(db.clients)[cid := NewClientRow(uid, upd.email, upd.client)])
    ensures r.Err? && id.Some? && id.value in old(db.users) && !ClientService.RejectsPlan(upd.client.plan)
            && !EmailTaken(old(db.users), UserWithClientRow(old(db.users)[id.value], upd).email, id.value)
            ==> r == Err(InvalidQuery) && ClientsOfUser(old(db.clients), id.value) != {}
  {
    if id.None? {
      return Err(Thrown(BadIdMessage));
    }
    if ClientService.RejectsPlan(upd.client.plan) {
      return Err(Thrown(ClientService.BadPlanMessage));
    }
    var uid := id.value;
    if uid !in db.users {
      return Err(Thrown(UserMissingMessage));
    }
    var row := UserWithClientRow(db.users[uid], upd);
    if EmailTaken(db.users, row.email, uid) {
      return Err(Thrown(EmailRegisteredMessage));
    }
    var existing := db.ClientOfUser(uid);
    if existing.Some? {
      var cid := existing.value;
      assert cid in ClientsOfUser(db.clients, uid);
      var patched := ClientService.PatchClient(db.clients[cid], upd.client);
      if patched.Err? {
        // the failed client update rolls the user update back with it
        return Err(InvalidQuery);
      }
      db.UpdateUserRow(uid, row);
      db.UpdateClientRow(cid, patched.value);
    } else {
      assert forall k :: k in db.clients ==> k !in ClientsOfUser(db.clients, uid);
      db.UpdateUserRow(uid, row);
      var _ := db.InsertClient(NewClientRow(uid, upd.email, upd.client));
    }
    r := Ok(row);
  }

  // ---------------------------------------------------------------- deleteUser

  /** The files `deleteUser` tries to remove: those of every media row below the user's clients. */
  function UserFiles(pubs: map<int, Publication>, media: map<int, Media>, clients: map<int, Client>, uid: int): set<string> {
    StoredFileNames(media, MediaOfPublications(media, PublicationsOfClients(pubs, ClientsOfUser(clients, uid))))
  }

  /** `deleteUser`: removes the user's stored files (a failure is only logged), then deletes the
      user, which cascades to its clients, their publications and media, and its notes. */
  method DeleteUser(db: Database, id: Option<int>, unlinkFails: set<string>) returns (r: Result<User>)
    requires db.Valid()
    modifies db
    ensures db.Valid()
    ensures id.None? ==> r == Err(Thrown(BadIdMessage))
    ensures id.Some? && id.value !in old(db.users) ==> r == Err(Thrown(UserMissingMessage))
    ensures r.Err? ==> unchanged(db)
    ensures r.Ok? <==> id.Some? && id.value in old(db.users)
    ensures r.Ok? ==>
      var uid := id.value;
      && r.value == old(db.users)[uid]
      && db.files == old(db.files) - (UserFiles(old(db.publications), old(db.media), old(db.clients), uid) - unlinkFails)
      && db.users == old(db.users) - {uid}
      && db.clients == old(db.clients) - ClientsOfUser(old(db.clients), uid)
      && db.notes == old(db.notes) - NotesOfUser(old(db.notes), uid)
      && db.publications == old(db.publications)
           - PublicationsOfClients(old(db.publications), ClientsOfUser(old(db.clients), uid))
      && db.media == old(db.media) - MediaOfPublications(old(db.media),
           PublicationsOfClients(old(db.publications), ClientsOfUser(old(db.clients), uid)))
  {
    if id.None? {
      return Err(Thrown(BadIdMessage));
    }
    var uid := id.value;
    if uid !in db.users {
      return Err(Thrown(UserMissingMessage));
    }
    var u := db.users[uid];
    db.UnlinkAll(UserFiles(db.publications, db.media, db.clients, uid), unlinkFails);
    db.DeleteUserRow(uid);
    r := Ok(u);
  }
}
