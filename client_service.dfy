/** The client administration service: lookup, partial update with the plan check, the status
    switch, and the hard delete that clears the client's stored files first. */
module ClientService {
  import opened Domain
  import opened Store

  const ClientMissingMessage := "Cliente no encontrado."
  const BadPlanMessage := "Plan no válido. Use BASIC, STANDARD o FULL"

  /** `getClientById`. */
  function GetClientById(clients: map<int, Client>, cid: int): (r: Result<Client>)
    ensures r.Ok? <==> cid in clients
    ensures r.Ok? ==> r.value == clients[cid]
    ensures r.Err? ==> r.error == Thrown(ClientMissingMessage)
  {
    if cid in clients then Ok(clients[cid]) else Err(Thrown(ClientMissingMessage))
  }

  /** The client fields of a request body; `None` is a field left undefined. */
  datatype ClientUpdate = ClientUpdate(
    companyName: Option<string>, ruc: Option<string>, contactEmail: Option<string>,
    contactPhone: Option<string>, status: Option<JsValue>, plan: Option<string>)

  const NoClientChange := ClientUpdate(None, None, None, None, None, None)

  /** The service's own plan check, which only looks at a truthy plan. */
  predicate RejectsPlan(plan: Option<string>) {
    Truthy(plan) && ParsePlan(plan.value).None?
  }

  /** The row `prisma.clients.update` writes: a field that is not undefined replaces the stored one,
      the status through `Boolean`; a plan naming no member (only the empty string gets past
      `RejectsPlan`) fails the query validation. */
  function PatchClient(c: Client, upd: ClientUpdate): (r: Result<Client>)
    ensures r.Err? <==> upd.plan.Some? && ParsePlan(upd.plan.value).None?
    ensures r.Err? ==> r.error == InvalidQuery
    ensures r.Ok? ==> r.value.userId == c.userId
    ensures r.Ok? && upd.plan.Some? ==> PlanName(r.value.plan) == upd.plan.value
    ensures r.Ok? && upd.plan.None? ==> r.value.plan == c.plan
  {
    var plan := if upd.plan.Some? then ParsePlan(upd.plan.value) else Some(c.plan);
    if plan.None? then Err(InvalidQuery)
    else Ok(Client(c.userId,
                   upd.companyName.GetOr(c.companyName),
                   upd.ruc.GetOr(c.ruc),
                   upd.contactEmail.GetOr(c.contactEmail),
                   upd.contactPhone.GetOr(c.contactPhone),
                   plan.value,
                   if upd.status.Some? then ToBoolean(upd.status.value) else c.active))
  }

  /** An update with every field undefined writes the row back unchanged. */
  lemma PatchClientNothing(c: Client)
    ensures PatchClient(c, NoClientChange) == Ok(c)
  {
  }

  /** Applying the same update twice gives the row applying it once gives. */
  lemma PatchClientIdempotent(c: Client, upd: ClientUpdate)
    requires PatchClient(c, upd).Ok?
    ensures PatchClient(PatchClient(c, upd).value, upd) == PatchClient(c, upd)
  {
    var once := PatchClient(c, upd).value;
    if upd.plan.Some? {
      assert ParsePlan(upd.plan.value) == Some(once.plan);
    }
  }

  /** Only the supplied fields change: a field left undefined keeps its stored value. */
  lemma PatchClientKeepsUndefined(c: Client, upd: ClientUpdate)
    requires PatchClient(c, upd).Ok?
    ensures var r := PatchClient(c, upd).value;
      && (upd.companyName.None? ==> r.companyName == c.companyName)
      && (upd.ruc.None? ==> r.ruc == c.ruc)
      && (upd.contactEmail.None? ==> r.contactEmail == c.contactEmail)
      && (upd.contactPhone.None? ==> r.contactPhone == c.contactPhone)
      && (upd.status.None? ==> r.active == c.active)
      && (upd.plan.None? ==> r.plan == c.plan)
  {
  }

  /** `updateClient`: the plan check, then the update, whose missing row (P2025) is reported as
      "Cliente no encontrado.". */
  method UpdateClient(db: Database, cid: int, upd: ClientUpdate) returns (r: Result<Client>)
    requires db.Valid()
    modifies db
    ensures db.Valid()
    ensures db.publications == old(db.publications) && db.media == old(db.media) && db.users == old(db.users)
    ensures db.notes == old(db.notes) && db.files == old(db.files)
    ensures RejectsPlan(upd.plan) ==> r == Err(Thrown(BadPlanMessage))
    ensures !RejectsPlan(upd.plan) && upd.plan == Some("") ==> r == Err(InvalidQuery)
    ensures !RejectsPlan(upd.plan) && upd.plan != Some("") && cid !in old(db.clients) ==> r == Err(Thrown(ClientMissingMessage))
    ensures r.Ok? <==> cid in old(db.clients) && PatchClient(old(db.clients)[cid], upd).Ok?
    ensures r.Ok? ==> r == PatchClient(old(db.clients)[cid], upd) && db.clients == old(db.clients)[cid := r.value]
    ensures r.Err? ==> db.clients == old(db.clients)
  {
    if RejectsPlan(upd.plan) {
      return Err(Thrown(BadPlanMessage));
    }
    if upd.plan.Some? && ParsePlan(upd.plan.value).None? {
      return Err(InvalidQuery);
    }
    if cid !in db.clients {
      return Err(Thrown(ClientMissingMessage));
    }
    r := PatchClient(db.clients[cid], upd);
    db.UpdateClientRow(cid, r.value);
  }

  /** `Boolean(isActive)`, with an undefined value false. */
  function Coerced(v: Option<JsValue>): bool {
    v.Some? && ToBoolean(v.value)
  }

  /** `toggleClientStatus`: writes the status and nothing else. */
  method ToggleClientStatus(db: Database, cid: int, isActive: Option<JsValue>) returns (r: Result<Client>)
    requires db.Valid()
    modifies db
    ensures db.Valid()
    ensures db.publications == old(db.publications) && db.media == old(db.media) && db.users == old(db.users)
    ensures db.notes == old(db.notes) && db.files == old(db.files)
    ensures cid !in old(db.clients) ==> r == Err(Thrown(ClientMissingMessage)) && db.clients == old(db.clients)
    ensures cid in old(db.clients) ==>
      && r == Ok(old(db.clients)[cid].(active := Coerced(isActive)))
      && db.clients == old(db.clients)[cid := r.value]
  {
    if cid !in db.clients {
      return Err(Thrown(ClientMissingMessage));
    }
    var c := db.clients[cid].(active := Coerced(isActive));
    db.UpdateClientRow(cid, c);
    r := Ok(c);
  }

  /** Toggling is the update that supplies only the status (for a defined value). */
  lemma ToggleIsStatusUpdate(c: Client, v: JsValue)
    ensures PatchClient(c, NoClientChange.(status := Some(v))) == Ok(c.(active := Coerced(Some(v))))
  {
  }

  /** The files `deleteClient` tries to remove: one name per media row of the client's
      publications, normalised with `UploadFileName`. */
  function ClientFiles(pubs: map<int, Publication>, media: map<int, Media>, cid: int): set<string> {
    StoredFileNames(media, MediaOfPublications(media, PublicationsOfClients(pubs, {cid})))
  }

  /** Whether media row `mid` belongs to one of client `cid`'s publications. */
  predicate OfClient(pubs: map<int, Publication>, media: map<int, Media>, cid: int, mid: int) {
    mid in media && media[mid].publicationId in pubs && pubs[media[mid].publicationId].clientId == cid
  }

  /** Every media row of the client with a url has its stored file among the files removed, whichever
      of the url forms it was saved under, and every file removed is one of the client's. */
  lemma ClientFilesCoverMedia(pubs: map<int, Publication>, media: map<int, Media>, cid: int, mid: int)
    requires OfClient(pubs, media, cid, mid) && media[mid].url != ""
    ensures UploadFileName(media[mid].url) in ClientFiles(pubs, media, cid)
    ensures forall name :: name in ClientFiles(pubs, media, cid) ==>
      exists m :: OfClient(pubs, media, cid, m) && media[m].url != "" && UploadFileName(media[m].url) == name
  {
    assert media[mid].publicationId in PublicationsOfClients(pubs, {cid});
    assert mid in MediaOfPublications(media, PublicationsOfClients(pubs, {cid}));
    forall name | name in ClientFiles(pubs, media, cid)
      ensures exists m :: OfClient(pubs, media, cid, m) && media[m].url != "" && UploadFileName(media[m].url) == name
    {
      var m :| m in MediaOfPublications(media, PublicationsOfClients(pubs, {cid})) && m in media
        && media[m].url != "" && UploadFileName(media[m].url) == name;
      assert OfClient(pubs, media, cid, m);
    }
  }

  /** With the foreign key from publications to clients in place, a missing client has no files,
      so deleting it removes nothing from the uploads directory. */
  lemma MissingClientHasNoFiles(pubs: map<int, Publication>, media: map<int, Media>, clients: map<int, Client>, cid: int)
    requires forall id :: id in pubs ==> pubs[id].clientId in clients
    requires cid !in clients
    ensures ClientFiles(pubs, media, cid) == {}
  {
    assert forall id :: id !in PublicationsOfClients(pubs, {cid});
    assert forall id :: id !in MediaOfPublications(media, PublicationsOfClients(pubs, {cid}));
  }

  /** `deleteClient`: removes the client's stored files (a failure is only logged), then deletes the
      row, which cascades to its publications and their media. */
  method DeleteClient(db: Database, cid: int, unlinkFails: set<string>) returns (r: Result<Client>)
    requires db.Valid()
    modifies db
    ensures db.Valid()
    ensures db.users == old(db.users) && db.notes == old(db.notes)
    ensures cid !in old(db.clients) ==> r == Err(Thrown(ClientMissingMessage)) && unchanged(db)
    ensures cid in old(db.clients) ==>
      && r == Ok(old(db.clients)[cid])
      && db.files == old(db.files) - (ClientFiles(old(db.publications), old(db.media), cid) - unlinkFails)
      && db.clients == old(db.clients) - {cid}
      && db.publications == old(db.publications) - PublicationsOfClients(old(db.publications), {cid})
      && db.media == old(db.media) - MediaOfPublications(old(db.media), PublicationsOfClients(old(db.publications), {cid}))
  {
    if cid !in db.clients {
      // no publication refers to a missing client, so the source's file pass removes nothing
      return Err(Thrown(ClientMissingMessage));
    }
    var c := db.clients[cid];
    db.UnlinkAll(ClientFiles(db.publications, db.media, cid), unlinkFails);
    db.DeleteClients({cid});
    r := Ok(c);
  }
}
