/** The publication state machine: quota-checked creation, partial updates whose content-type change
    sweeps away media of the other MIME family, status-only updates and deletion. */
module PublicationService {
  import opened Strings
  import opened Domain
  import opened Store

  const BadContentTypeMessage := "Tipo de contenido no válido. Solo se permite POST o REEL."
  const BadStatusMessage := "Estado no válido. Use DRAFT, SCHEDULED o PUBLISHED."
  const PublicationNotFoundMessage := "Publicación no encontrada."
  const ClientNotFoundMessage := "Cliente no encontrado"
  const ClientInactiveMessage := "Cliente inactivo. No puede crear publicaciones."

  // ---------------------------------------------------------------- reading

  function GetPublicationById(db: Database, pid: int): (r: Result<Publication>)
    reads db
    ensures r.Ok? <==> pid in db.publications
    ensures r.Ok? ==> r.value == db.publications[pid]
    ensures r.Err? ==> r.error == Thrown(PublicationNotFoundMessage)
  {
    if pid in db.publications then Ok(db.publications[pid]) else Err(Thrown(PublicationNotFoundMessage))
  }

  // ---------------------------------------------------------------- the media sweep

  /** Whether a media row with MIME `mediaType` is swept when the content type becomes `t`:
      images go when it becomes REEL, videos when it becomes POST; the MIME is lower-cased first
      and anything on neither list stays. */
  predicate Incompatible(t: ContentType, mediaType: string) {
    var mime := ToLower(mediaType);
    (t == REEL && mime in ImageTypes) || (t == POST && mime in VideoTypes)
  }

  /** Ids of the media of `pid` that a change to content type `t` sweeps away. */
  function Doomed(media: map<int, Media>, pid: int, t: ContentType): (r: set<int>)
    ensures r <= MediaOf(media, pid)
  {
    set id | id in media && media[id].publicationId == pid && Incompatible(t, media[id].mediaType)
  }

  /** The urls of the media rows `ids`. */
  function UrlsOf(media: map<int, Media>, ids: set<int>): set<string> {
    set id | id in ids && id in media :: media[id].url
  }

  /** One entry of the list of removed media reported back to the caller. */
  datatype Removal = Removal(id: int, url: string, mediaType: string, reason: string)

  function RemovalOf(id: int, m: Media, t: ContentType): Removal {
    Removal(id, m.url, m.mediaType, "Incompatible con tipo " + ContentTypeName(t))
  }

  function IdsOf(removed: seq<Removal>): set<int> {
    set k | 0 <= k < |removed| :: removed[k].id
  }

  lemma IdsOfAppend(removed: seq<Removal>, r: Removal)
    ensures IdsOf(removed + [r]) == IdsOf(removed) + {r.id}
  {
    var s := removed + [r];
    assert s[|removed|].id == r.id;
    assert forall k :: 0 <= k < |removed| ==> s[k] == removed[k];
  }

  /** Deletes the media of `pid` that are incompatible with `t`, one row at a time, and reports them.
      A disk failure (`unlinkFails`) is only logged; a failing row delete (`failing`) ends the sweep
      with an empty report, keeping the rows removed before it. */
  method DeleteIncompatibleMedia(db: Database, pid: int, t: ContentType, failing: set<int>,
                                 unlinkFails: set<string>)
    returns (removed: seq<Removal>)
    requires db.Valid()
    modifies db
    ensures db.Valid()
    ensures db.publications == old(db.publications) && db.clients == old(db.clients)
    ensures db.users == old(db.users) && db.notes == old(db.notes)
    ensures var doomed := Doomed(old(db.media), pid, t);
      doomed * failing == {} ==>
        && db.media == old(db.media) - doomed
        && db.files == UnlinkedAll(old(db.files), UrlsOf(old(db.media), doomed), unlinkFails)
        && IdsOf(removed) == doomed
        && (forall i, j :: 0 <= i < j < |removed| ==> removed[i].id != removed[j].id)
        && (forall k :: 0 <= k < |removed| ==>
              && removed[k].id in old(db.media)
              && removed[k] == RemovalOf(removed[k].id, old(db.media)[removed[k].id], t))
    ensures var doomed := Doomed(old(db.media), pid, t);
      doomed * failing != {} ==>
        && removed == []
        && (forall id :: id in db.media ==> id in old(db.media) && db.media[id] == old(db.media)[id])
        && (forall id :: id in old(db.media) && id !in doomed ==> id in db.media)
        && doomed * failing * db.media.Keys != {}
        && old(db.files) - UrlsOf(old(db.media), doomed) <= db.files <= old(db.files)
  {
    var swept, stop;
    removed, swept, stop := ScanIncompatible(db.media, pid, t, failing);
    if stop.Some? {
      AbortSweep(db, pid, t, swept, stop.value, unlinkFails);
      assert stop.value in Doomed(old(db.media), pid, t) * failing * db.media.Keys;
      return [];
    }
    db.UnlinkAll(UrlsOf(db.media, swept), unlinkFails);
    db.DeleteMediaRows(swept);
  }

  /** The loop of the sweep over the publication's media: the rows it deletes in turn (`swept`) and
      reports (`removed`), and the row whose delete throws (`stop`), if any. */
  method ScanIncompatible(media: map<int, Media>, pid: int, t: ContentType, failing: set<int>)
    returns (removed: seq<Removal>, swept: set<int>, stop: Option<int>)
    ensures swept <= Doomed(media, pid, t) && forall x :: x in swept ==> x !in failing
    ensures stop.None? <==> Doomed(media, pid, t) * failing == {}
    ensures stop.None? ==> swept == Doomed(media, pid, t)
    ensures stop.Some? ==> stop.value in Doomed(media, pid, t) * failing && stop.value !in swept
    ensures IdsOf(removed) == swept
    ensures forall i, j :: 0 <= i < j < |removed| ==> removed[i].id != removed[j].id
    ensures forall k :: 0 <= k < |removed| ==>
      removed[k].id in media && removed[k] == RemovalOf(removed[k].id, media[removed[k].id], t)
  {
    ghost var doomed := Doomed(media, pid, t);
    var todo := MediaOf(media, pid);
    swept := {};
    removed := [];
    while todo != {}
      invariant todo <= MediaOf(media, pid)
      invariant swept <= doomed
      invariant forall x :: x in swept ==> x !in todo && x !in failing
      invariant forall id :: id in doomed && id !in todo ==> id in swept
      invariant IdsOf(removed) == swept
      invariant forall k :: 0 <= k < |removed| ==> removed[k].id in swept
      invariant forall i, j :: 0 <= i < j < |removed| ==> removed[i].id != removed[j].id
      invariant forall k :: 0 <= k < |removed| ==>
        removed[k].id in media && removed[k] == RemovalOf(removed[k].id, media[removed[k].id], t)
      decreases todo
    {
      HasElement(todo);
      var id :| id in todo;
      assert id !in swept;
      todo := todo - {id};
      var m := media[id];
      if Incompatible(t, m.mediaType) {
        if id in failing {
          assert id in doomed * failing;
          return removed, swept, Some(id);
        }
        IdsOfAppend(removed, RemovalOf(id, m, t));
        removed := removed + [RemovalOf(id, m, t)];
        swept := swept + {id};
      }
    }
    assert forall x :: x in swept <==> x in doomed;
    assert forall x :: x !in doomed * failing;
    stop := None;
  }

  /** The sweep's failure path: the file of the row whose delete throws is already gone, together
      with those of the rows deleted before it; those rows stay deleted. */
  method AbortSweep(db: Database, pid: int, t: ContentType, swept: set<int>, id: int, unlinkFails: set<string>)
    requires db.Valid()
    requires swept <= Doomed(db.media, pid, t) && id in Doomed(db.media, pid, t) && id !in swept
    modifies db
    ensures db.Valid()
    ensures db.publications == old(db.publications) && db.clients == old(db.clients)
    ensures db.users == old(db.users) && db.notes == old(db.notes)
    ensures db.media == old(db.media) - swept
    ensures old(db.files) - UrlsOf(old(db.media), Doomed(old(db.media), pid, t)) <= db.files <= old(db.files)
  {
    ghost var urls := UrlsOf(db.media, Doomed(db.media, pid, t));
    assert UrlsOf(db.media, swept + {id}) <= urls;
    db.UnlinkAll(UrlsOf(db.media, swept + {id}), unlinkFails);
    db.DeleteMediaRows(swept);
  }

  // ---------------------------------------------------------------- updatePublication

  /** The fields of an update request body; `None` is a field the body leaves out. */
  datatype PublicationUpdate = PublicationUpdate(
    title: Option<string>, contentType: Option<string>, status: Option<string>, publishDate: Option<int>)

  datatype UpdateOutcome = UpdateOutcome(publication: Publication, removed: seq<Removal>)

  /** The truthiness-guarded enum checks reject a non-empty value outside the enumeration. */
  predicate RejectsContentType(upd: PublicationUpdate) {
    Truthy(upd.contentType) && ParseContentType(upd.contentType.value).None?
  }

  predicate RejectsStatus(upd: PublicationUpdate) {
    Truthy(upd.status) && ParseStatus(upd.status.value).None?
  }

  /** Whether the update sweeps media: it names a content type other than the stored one. */
  predicate SweepApplies(pubs: map<int, Publication>, pid: int, upd: PublicationUpdate) {
    Truthy(upd.contentType) && pid in pubs && ContentTypeName(pubs[pid].contentType) != upd.contentType.value
  }

  /** The status the update carries to the store: DRAFT replaces a missing or empty status once the
      sweep has removed something. */
  function StatusToWrite(requested: Option<string>, swept: bool): (r: Option<string>)
    ensures Truthy(requested) ==> r == requested
    ensures !Truthy(requested) && swept ==> r == Some("DRAFT")
    ensures !swept ==> r == requested
  {
    if swept && !Truthy(requested) then Some("DRAFT") else requested
  }

  /** The query validation refuses a supplied enum value naming no member (only the empty string
      gets past the truthiness-guarded checks). */
  predicate QueryRejects(contentType: Option<string>, status: Option<string>) {
    || (contentType.Some? && ParseContentType(contentType.value).None?)
    || (status.Some? && ParseStatus(status.value).None?)
  }

  /** The row `prisma.publications.update` writes from `p`: every supplied field replaces the stored
      one, the others are kept; the query validation comes first. */
  function Patched(p: Publication, title: Option<string>, contentType: Option<string>,
                   status: Option<string>, publishDate: Option<int>): (r: Result<Publication>)
    ensures r.Err? <==> QueryRejects(contentType, status)
    ensures r.Err? ==> r.error == InvalidQuery
    ensures r.Ok? ==> r.value.clientId == p.clientId
    ensures r.Ok? ==> r.value.title == title.GetOr(p.title) && r.value.publishDate == publishDate.GetOr(p.publishDate)
    ensures r.Ok? ==> ContentTypeName(r.value.contentType) == contentType.GetOr(ContentTypeName(p.contentType))
    ensures r.Ok? ==> StatusName(r.value.status) == status.GetOr(StatusName(p.status))
  {
    var ct := if contentType.Some? then ParseContentType(contentType.value) else Some(p.contentType);
    var st := if status.Some? then ParseStatus(status.value) else Some(p.status);
    if ct.None? || st.None? then Err(InvalidQuery)
    else Ok(Publication(p.clientId, title.GetOr(p.title), ct.value, st.value, publishDate.GetOr(p.publishDate)))
  }

  /** `updatePublication`: validates the enums, sweeps incompatible media when the content type
      changes (forcing DRAFT when something was removed and no status was given), then writes. */
  method UpdatePublication(db: Database, pid: int, upd: PublicationUpdate, failing: set<int>,
                           unlinkFails: set<string>)
    returns (r: Result<UpdateOutcome>)
    requires db.Valid()
    modifies db
    ensures db.Valid()
    ensures db.clients == old(db.clients) && db.users == old(db.users) && db.notes == old(db.notes)
    ensures RejectsContentType(upd) ==> r == Err(Thrown(BadContentTypeMessage)) && unchanged(db)
    ensures !RejectsContentType(upd) && RejectsStatus(upd) ==> r == Err(Thrown(BadStatusMessage)) && unchanged(db)
    ensures !SweepApplies(old(db.publications), pid, upd) ==> db.media == old(db.media) && db.files == old(db.files)
    ensures !RejectsContentType(upd) && !RejectsStatus(upd) && SweepApplies(old(db.publications), pid, upd)
            && Doomed(old(db.media), pid, ParseContentType(upd.contentType.value).value) * failing == {}
            ==>
      && db.media == old(db.media) - Doomed(old(db.media), pid, ParseContentType(upd.contentType.value).value)
      && db.files == UnlinkedAll(old(db.files),
                   UrlsOf(old(db.media), Doomed(old(db.media), pid, ParseContentType(upd.contentType.value).value)), unlinkFails)
    ensures !RejectsContentType(upd) && !RejectsStatus(upd) && SweepApplies(old(db.publications), pid, upd) ==>
      var doomed := Doomed(old(db.media), pid, ParseContentType(upd.contentType.value).value);
      doomed * failing != {} ==>
        && (forall id :: id in db.media ==> id in old(db.media) && db.media[id] == old(db.media)[id])
        && (forall id :: id in old(db.media) && id !in doomed ==> id in db.media)
        && old(db.files) - UrlsOf(old(db.media), doomed) <= db.files <= old(db.files)
    ensures r.Ok? ==>
      && pid in old(db.publications)
      && db.publications == old(db.publications)[pid := r.value.publication]
      && Patched(old(db.publications)[pid], upd.title, upd.contentType,
                 StatusToWrite(upd.status, |r.value.removed| > 0), upd.publishDate) == Ok(r.value.publication)
    ensures r.Ok? && !SweepApplies(old(db.publications), pid, upd) ==> r.value.removed == []
    ensures r.Ok? && SweepApplies(old(db.publications), pid, upd) ==>
      var doomed := Doomed(old(db.media), pid, ParseContentType(upd.contentType.value).value);
      && (doomed * failing == {} ==> IdsOf(r.value.removed) == doomed)
      && (doomed * failing != {} ==> r.value.removed == [])
    ensures r.Ok? && SweepApplies(old(db.publications), pid, upd) && !Truthy(upd.status) ==>
      var doomed := Doomed(old(db.media), pid, ParseContentType(upd.contentType.value).value);
      doomed != {} && doomed * failing == {} ==> r.value.publication.status == DRAFT
    ensures r.Err? ==> db.publications == old(db.publications)
    ensures r.Err? && !RejectsContentType(upd) && !RejectsStatus(upd) ==>
      r.error == InvalidQuery || (r.error == Thrown(PublicationNotFoundMessage) && pid !in old(db.publications))
    ensures r == Err(InvalidQuery) ==> QueryRejects(upd.contentType, upd.status)
  {
    if RejectsContentType(upd) {
      return Err(Thrown(BadContentTypeMessage));
    }
    if RejectsStatus(upd) {
      return Err(Thrown(BadStatusMessage));
    }
    var status := upd.status;
    var removed: seq<Removal> := [];
    if SweepApplies(db.publications, pid, upd) {
      var t := ParseContentType(upd.contentType.value).value;
      removed := DeleteIncompatibleMedia(db, pid, t, failing, unlinkFails);
      status := StatusToWrite(status, |removed| > 0);
    }
    if QueryRejects(upd.contentType, status) {
      return Err(InvalidQuery);
    }
    if pid !in db.publications {
      return Err(Thrown(PublicationNotFoundMessage));
    }
    var written := Patched(db.publications[pid], upd.title, upd.contentType, status, upd.publishDate);
    db.publications := db.publications[pid := written.value];
    r := Ok(UpdateOutcome(written.value, removed));
  }

  // ---------------------------------------------------------------- updatePublicationStatus, deletePublication

  /** `updatePublicationStatus`: checks the value against the enumeration, then writes the status
      field and nothing else. */
  method UpdatePublicationStatus(db: Database, pid: int, newStatus: string) returns (r: Result<Publication>)
    requires db.Valid()
    modifies db
    ensures db.Valid()
    ensures db.media == old(db.media) && db.clients == old(db.clients) && db.users == old(db.users)
    ensures db.notes == old(db.notes) && db.files == old(db.files)
    ensures ParseStatus(newStatus).None? ==> r == Err(Thrown(BadStatusMessage)) && unchanged(db)
    ensures ParseStatus(newStatus).Some? && pid !in old(db.publications) ==>
      r == Err(Thrown(PublicationNotFoundMessage)) && unchanged(db)
    ensures r.Ok? <==> ParseStatus(newStatus).Some? && pid in old(db.publications)
    ensures r.Ok? ==>
      && r.value == old(db.publications)[pid].(status := ParseStatus(newStatus).value)
      && db.publications == old(db.publications)[pid := r.value]
  {
    var st := ParseStatus(newStatus);
    if st.None? {
      return Err(Thrown(BadStatusMessage));
    }
    if pid !in db.publications {
      return Err(Thrown(PublicationNotFoundMessage));
    }
    var p := db.publications[pid].(status := st.value);
    db.publications := db.publications[pid := p];
    r := Ok(p);
  }

  /** `deletePublication`: a hard delete; the schema cascades it to the publication's media rows,
      whose files stay in the uploads directory. */
  method DeletePublication(db: Database, pid: int) returns (r: Result<Publication>)
    requires db.Valid()
    modifies db
    ensures db.Valid()
    ensures pid !in old(db.publications) ==> r == Err(Thrown(PublicationNotFoundMessage)) && unchanged(db)
    ensures pid in old(db.publications) ==>
      && r == Ok(old(db.publications)[pid])
      && db.publications == old(db.publications) - {pid}
      && db.media == old(db.media) - MediaOf(old(db.media), pid)
    ensures db.clients == old(db.clients) && db.users == old(db.users) && db.notes == old(db.notes)
    ensures db.files == old(db.files)
  {
    if pid !in db.publications {
      return Err(Thrown(PublicationNotFoundMessage));
    }
    r := Ok(db.publications[pid]);
    assert MediaOfPublications(db.media, {pid}) == MediaOf(db.media, pid);
    db.DeletePublications({pid});
  }

  // ---------------------------------------------------------------- createPublication and the quota

  /** The plan table: how many publications of each content type a client on `plan` may hold. */
  function PlanLimit(plan: Plan, t: ContentType): nat {
    match plan
    case BASIC => if t == REEL then 4 else 8
    case STANDARD => if t == REEL then 8 else 10
    case FULL => 15
  }

  /** Ids of the publications of `cid` with content type `t`, whatever their status. */
  function OfClientAndType(pubs: map<int, Publication>, cid: int, t: ContentType): set<int> {
    set id | id in pubs && pubs[id].clientId == cid && pubs[id].contentType == t
  }

  /** The count the quota compares against the plan's limit. */
  function CountOf(pubs: map<int, Publication>, cid: int, t: ContentType): nat {
    |OfClientAndType(pubs, cid, t)|
  }

  function LimitMessage(t: ContentType, plan: Plan): string {
    "Límite alcanzado para el tipo " + ContentTypeName(t) + ". Su plan " + PlanName(plan)
      + " permite un máximo de " + NatToString(PlanLimit(plan, t)) + " " + ContentTypeName(t) + "s."
  }

  /** The fields of a creation request body; `None` is a field the body leaves out (or, for the
      date, leaves empty). */
  datatype PublicationInput = PublicationInput(
    title: string, contentType: Option<string>, publishDate: Option<int>, status: Option<string>)

  /** The status the destructuring default gives: DRAFT only when the field is absent. */
  function InputStatus(input: PublicationInput): string {
    input.status.GetOr("DRAFT")
  }

  /** `createPublication`: enum checks, then, in one transaction, the client lookup, the active flag,
      the count of the client's publications of that type against the plan's limit, and the insert. */
  method CreatePublication(db: Database, cid: int, input: PublicationInput, now: int) returns (r: Result<int>)
    requires db.Valid()
    modifies db
    ensures db.Valid()
    ensures r.Err? ==> unchanged(db)
    ensures input.contentType.None? || ParseContentType(input.contentType.value).None? ==>
      r == Err(Thrown(BadContentTypeMessage))
    ensures input.contentType.Some? && ParseContentType(input.contentType.value).Some?
            && ParseStatus(InputStatus(input)).None?
            ==> r == Err(Thrown(BadStatusMessage))
    ensures r.Ok? ==>
      && input.contentType.Some?
      && var t := ParseContentType(input.contentType.value).value;
      && var st := ParseStatus(InputStatus(input)).value;
      && cid in old(db.clients) && old(db.clients)[cid].active
      && CountOf(old(db.publications), cid, t) < PlanLimit(old(db.clients)[cid].plan, t)
      && r.value !in old(db.publications)
      && db.publications == old(db.publications)[r.value :=
           Publication(cid, input.title, t, st, input.publishDate.GetOr(now))]
      && db.media == old(db.media) && db.clients == old(db.clients) && db.users == old(db.users)
      && db.notes == old(db.notes) && db.files == old(db.files)
    ensures input.contentType.Some? && ParseContentType(input.contentType.value).Some?
            && ParseStatus(InputStatus(input)).Some? ==>
      var t := ParseContentType(input.contentType.value).value;
      && (cid !in old(db.clients) ==> r == Err(Thrown(ClientNotFoundMessage)))
      && (cid in old(db.clients) && !old(db.clients)[cid].active ==> r == Err(Thrown(ClientInactiveMessage)))
      && (cid in old(db.clients) && old(db.clients)[cid].active
          && CountOf(old(db.publications), cid, t) >= PlanLimit(old(db.clients)[cid].plan, t)
          ==> r == Err(Thrown(LimitMessage(t, old(db.clients)[cid].plan))))
      && (cid in old(db.clients) && old(db.clients)[cid].active
          && CountOf(old(db.publications), cid, t) < PlanLimit(old(db.clients)[cid].plan, t)
          ==> r.Ok?)
  {
    var ct := if input.contentType.Some? then ParseContentType(input.contentType.value) else None;
    if ct.None? {
      return Err(Thrown(BadContentTypeMessage));
    }
    var st := ParseStatus(InputStatus(input));
    if st.None? {
      return Err(Thrown(BadStatusMessage));
    }
    if cid !in db.clients {
      return Err(Thrown(ClientNotFoundMessage));
    }
    var client := db.clients[cid];
    if !client.active {
      return Err(Thrown(ClientInactiveMessage));
    }
    if CountOf(db.publications, cid, ct.value) >= PlanLimit(client.plan, ct.value) {
      return Err(Thrown(LimitMessage(ct.value, client.plan)));
    }
    var id := db.InsertPublication(Publication(cid, input.title, ct.value, st.value, input.publishDate.GetOr(now)));
    r := Ok(id);
  }

  // ---------------------------------------------------------------- properties

  /** Inserting a fresh row raises exactly the count of its own client and content type, by one. */
  lemma CountAfterInsert(pubs: map<int, Publication>, id: int, p: Publication, cid: int, t: ContentType)
    requires id !in pubs
    ensures CountOf(pubs[id := p], cid, t)
            == CountOf(pubs, cid, t) + (if p.clientId == cid && p.contentType == t then 1 else 0)
  {
    var before, after := OfClientAndType(pubs, cid, t), OfClientAndType(pubs[id := p], cid, t);
    if p.clientId == cid && p.contentType == t {
      assert after == before + {id};
    } else {
      assert after == before;
    }
  }

  /** A creation the quota lets through never takes the client past the plan's limit. */
  lemma CreationStaysWithinQuota(pubs: map<int, Publication>, id: int, p: Publication, plan: Plan)
    requires id !in pubs
    requires CountOf(pubs, p.clientId, p.contentType) < PlanLimit(plan, p.contentType)
    ensures CountOf(pubs[id := p], p.clientId, p.contentType) <= PlanLimit(plan, p.contentType)
  {
    CountAfterInsert(pubs, id, p, p.clientId, p.contentType);
  }

  /** One below the limit, a first creation succeeds and a second one of the same type is refused. */
  lemma SecondCreationAtLimitRefused(pubs: map<int, Publication>, id: int, p: Publication, plan: Plan)
    requires id !in pubs
    requires CountOf(pubs, p.clientId, p.contentType) + 1 == PlanLimit(plan, p.contentType)
    ensures CountOf(pubs, p.clientId, p.contentType) < PlanLimit(plan, p.contentType)
    ensures CountOf(pubs[id := p], p.clientId, p.contentType) >= PlanLimit(plan, p.contentType)
  {
    CountAfterInsert(pubs, id, p, p.clientId, p.contentType);
  }

  /** After a sweep the status written is the explicit one if the update names a valid status,
      and DRAFT otherwise. */
  lemma SweptUpdateStatus(p: Publication, upd: PublicationUpdate, t: ContentType)
    requires upd.contentType == Some(ContentTypeName(t)) && !RejectsStatus(upd)
    ensures var w := Patched(p, upd.title, upd.contentType, StatusToWrite(upd.status, true), upd.publishDate);
      && w.Ok?
      && w.value.contentType == t
      && w.value.status == (if Truthy(upd.status) then ParseStatus(upd.status.value).value else DRAFT)
  {
    var w := Patched(p, upd.title, upd.contentType, StatusToWrite(upd.status, true), upd.publishDate);
    assert ContentTypeName(w.value.contentType) == ContentTypeName(t);
  }

  /** A MIME on neither list (image/gif) survives every content-type change. */
  lemma UnlistedMimeSurvives(t: ContentType)
    ensures !Incompatible(t, "image/gif")
  {
    ToLowerOfLower("image/gif");
  }

  /** Media of the publication's own family are never swept. */
  lemma AcceptedMediaSurvive(t: ContentType, mediaType: string)
    requires ToLower(mediaType) in AcceptedTypes(t)
    ensures !Incompatible(t, mediaType)
  {
    FamiliesDisjoint(ToLower(mediaType));
  }

  /** A PUBLISHED POST with a single image/png, switched to REEL, loses that image and goes back
      to DRAFT. */
  lemma PostToReelScenario(p: Publication, pid: int, mid: int, url: string)
    requires p.contentType == POST && p.status == PUBLISHED
    ensures var media := map[mid := Media(pid, "image/png", url)];
      && Doomed(media, pid, REEL) == {mid}
      && Patched(p, None, Some("REEL"), StatusToWrite(None, true), None)
         == Ok(p.(contentType := REEL, status := DRAFT))
  {
    ToLowerOfLower("image/png");
    var media := map[mid := Media(pid, "image/png", url)];
    assert mid in Doomed(media, pid, REEL);
  }
}
