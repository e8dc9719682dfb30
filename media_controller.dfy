/** The media upload and delete HTTP handlers: parameter checks, an exact-match MIME gate before the
    service's own lower-casing check, the `publishNow` transition with its rollback, and the flags
    the delete response carries. */
module MediaController {
  import opened Domain
  import opened Store
  import PublicationService
  import MediaService

  /** The uploaded file as the upload middleware hands it over: its MIME type and the name under
      which it was stored in the uploads directory. */
  datatype UploadedFile = UploadedFile(mimetype: string, filename: string)

  datatype UploadResponse = UploadResponse(status: int, published: bool, mediaId: Option<int>)

  /** The handler's own gate, an exact comparison against the MIME list of the content type. */
  predicate GateAccepts(t: ContentType, mimetype: string) {
    mimetype in AcceptedTypes(t)
  }

  /** Whatever passes the handler's exact gate also passes the service's lower-cased check. */
  lemma GateImpliesServiceCheck(t: ContentType, mimetype: string)
    requires GateAccepts(t, mimetype)
    ensures MediaService.Compatible(t, mimetype)
  {
    AcceptedTypesAreLowerCase(t, mimetype);
  }

  /** `uploadMedia`. `pidParam` is `parseInt` of the route parameter (`None` for NaN), `publishNow`
      the raw query value, `publishFails` the publish update throwing, `unlinkFails` the files whose
      removal fails (only logged). */
  method UploadMedia(db: Database, pidParam: Option<int>, file: Option<UploadedFile>,
                     publishNow: Option<string>, now: int, publishFails: bool, unlinkFails: set<string>)
    returns (resp: UploadResponse)
    requires db.Valid()
    modifies db
    ensures db.Valid()
    ensures db.clients == old(db.clients) && db.users == old(db.users) && db.notes == old(db.notes)
    ensures pidParam.None? || file.None? ==> resp == UploadResponse(400, false, None) && unchanged(db)
    ensures pidParam.Some? && file.Some? && pidParam.value !in old(db.publications) ==>
      && resp == UploadResponse(404, false, None)
      && db.files == Unlinked(old(db.files), file.value.filename, unlinkFails)
      && db.media == old(db.media) && db.publications == old(db.publications)
    ensures pidParam.Some? && file.Some? && pidParam.value in old(db.publications)
            && !GateAccepts(old(db.publications)[pidParam.value].contentType, file.value.mimetype)
            ==>
      && resp == UploadResponse(400, false, None)
      && db.files == Unlinked(old(db.files), file.value.filename, unlinkFails)
      && db.media == old(db.media) && db.publications == old(db.publications)
    ensures pidParam.Some? && file.Some? && pidParam.value in old(db.publications)
            && GateAccepts(old(db.publications)[pidParam.value].contentType, file.value.mimetype)
            ==> Attached(old(db.publications), old(db.media), old(db.files), db.publications, db.media, db.files,
                         pidParam.value, file.value, publishNow, now, publishFails, unlinkFails, resp)
    ensures resp.status in {201, 400, 404, 500}
  {
    if pidParam.None? || file.None? {
      return UploadResponse(400, false, None);
    }
    var pid, f := pidParam.value, file.value;
    var found := PublicationService.GetPublicationById(db, pid);
    if found.Err? {
      db.Unlink(f.filename, unlinkFails);
      return UploadResponse(404, false, None);
    }
    if !GateAccepts(found.value.contentType, f.mimetype) {
      db.Unlink(f.filename, unlinkFails);
      return UploadResponse(400, false, None);
    }
    resp := Attach(db, pid, f, publishNow, now, publishFails, unlinkFails);
  }

  /** What an accepted upload leaves behind. On 201 the new media row holds the MIME and the stored
      file name, and the publication was published (dated `now`) exactly when `publishNow` was the
      string "true" and it was a DRAFT. On 500 the publish failed and the row and its file were
      rolled back. */
  ghost predicate Attached(pubs: map<int, Publication>, media: map<int, Media>, files: set<string>,
                           pubs': map<int, Publication>, media': map<int, Media>, files': set<string>,
                           pid: int, f: UploadedFile, publishNow: Option<string>, now: int,
                           publishFails: bool, unlinkFails: set<string>, resp: UploadResponse)
    requires pid in pubs
  {
    var publish := publishNow == Some("true") && pubs[pid].status == DRAFT;
    && (resp.status == 500 <==> publish && publishFails)
    && (resp.status != 500 ==> resp.status == 201)
    && (resp.status == 201 ==>
          && resp.mediaId.Some? && resp.mediaId.value !in media
          && media' == media[resp.mediaId.value := Media(pid, f.mimetype, f.filename)]
          && files' == files
          && (resp.published <==> publish)
          && pubs' == (if publish then pubs[pid := pubs[pid].(status := PUBLISHED, publishDate := now)] else pubs))
    && (resp.status == 500 ==>
          && !resp.published && resp.mediaId.None?
          && media' == media && pubs' == pubs
          && files' == Unlinked(files, f.filename, unlinkFails))
  }

  /** Removing a key that was just added restores the map. */
  lemma AddThenRemove<V>(m: map<int, V>, k: int, v: V)
    requires k !in m
    ensures m[k := v] - {k} == m
  {
    assert forall x :: x in m[k := v] - {k} <==> x in m;
  }

  /** The part of `uploadMedia` after the checks: the row is created, then the `publishNow` branch. */
  method Attach(db: Database, pid: int, f: UploadedFile, publishNow: Option<string>, now: int,
                publishFails: bool, unlinkFails: set<string>)
    returns (resp: UploadResponse)
    requires db.Valid()
    requires pid in db.publications && GateAccepts(db.publications[pid].contentType, f.mimetype)
    modifies db
    ensures db.Valid()
    ensures db.clients == old(db.clients) && db.users == old(db.users) && db.notes == old(db.notes)
    ensures Attached(old(db.publications), old(db.media), old(db.files), db.publications, db.media, db.files,
                     pid, f, publishNow, now, publishFails, unlinkFails, resp)
  {
    var publication := db.publications[pid];
    GateImpliesServiceCheck(publication.contentType, f.mimetype);
    var created := MediaService.CreateMedia(db, pid, f.mimetype, f.filename);
    if created.Err? {
      assert false;
      return UploadResponse(400, false, None);
    }
    var mid := created.value;
    if publishNow == Some("true") && publication.status == DRAFT {
      ghost var media0 := old(db.media);
      var ok := PublishNow(db, pid, mid, now, publishFails, unlinkFails);
      if !ok {
        AddThenRemove(media0, mid, Media(pid, f.mimetype, f.filename));
        return UploadResponse(500, false, None);
      }
      return UploadResponse(201, true, Some(mid));
    }
    resp := UploadResponse(201, false, Some(mid));
  }

  /** The `publishNow` branch for a DRAFT publication that has just received media `mid`: the update
      to PUBLISHED dated `now`, or, when it throws, the rollback through the media service. */
  method PublishNow(db: Database, pid: int, mid: int, now: int, publishFails: bool, unlinkFails: set<string>)
    returns (ok: bool)
    requires db.Valid()
    requires pid in db.publications && db.publications[pid].status == DRAFT
    requires mid in db.media && db.media[mid].publicationId == pid
    modifies db
    ensures db.Valid()
    ensures db.clients == old(db.clients) && db.users == old(db.users) && db.notes == old(db.notes)
    ensures ok <==> !publishFails
    ensures ok ==>
      && db.publications == old(db.publications)[pid := old(db.publications)[pid].(status := PUBLISHED, publishDate := now)]
      && db.media == old(db.media) && db.files == old(db.files)
    ensures !ok ==>
      && db.publications == old(db.publications)
      && db.media == old(db.media) - {mid}
      && db.files == Unlinked(old(db.files), old(db.media)[mid].url, unlinkFails)
  {
    if publishFails {
      var _ := MediaService.DeleteMedia(db, pid, mid, unlinkFails);
      return false;
    }
    var upd := PublicationService.PublicationUpdate(None, None, Some("PUBLISHED"), Some(now));
    var updated := PublicationService.UpdatePublication(db, pid, upd, {}, unlinkFails);
    if updated.Err? {
      assert false;
      return false;
    }
    ok := true;
  }

  datatype DeleteResponse = DeleteResponse(status: int, reverted: bool, remaining: nat)

  /** The `deleteMedia` handler: 400 for a non-numeric id, 404 when the service finds no such media
      under that publication, else 200 with `reverted` telling whether the publication went back to
      DRAFT. */
  method DeleteMediaHandler(db: Database, pidParam: Option<int>, midParam: Option<int>, unlinkFails: set<string>)
    returns (resp: DeleteResponse)
    requires db.Valid()
    modifies db
    ensures db.Valid()
    ensures pidParam.None? || midParam.None? ==> resp.status == 400 && unchanged(db)
    ensures pidParam.Some? && midParam.Some? ==>
      var pid, mid := pidParam.value, midParam.value;
      && (mid !in old(db.media) || old(db.media)[mid].publicationId != pid ==> resp.status == 404 && unchanged(db))
      && (mid in old(db.media) && old(db.media)[mid].publicationId == pid ==>
            && resp.status == 200
            && db.media == old(db.media) - {mid}
            && db.files == Unlinked(old(db.files), old(db.media)[mid].url, unlinkFails)
            && resp.remaining == |MediaOf(db.media, pid)|
            && (resp.reverted <==> resp.remaining == 0 && MediaService.Live(old(db.publications)[pid].status))
            && (resp.reverted ==>
                  db.publications == old(db.publications)[pid := old(db.publications)[pid].(status := DRAFT)])
            && (!resp.reverted ==> db.publications == old(db.publications)))
    ensures db.clients == old(db.clients) && db.users == old(db.users) && db.notes == old(db.notes)
  {
    if pidParam.None? || midParam.None? {
      return DeleteResponse(400, false, 0);
    }
    var result := MediaService.DeleteMedia(db, pidParam.value, midParam.value, unlinkFails);
    if result.None? {
      return DeleteResponse(404, false, 0);
    }
    resp := DeleteResponse(200, result.value.reverted.Some?, result.value.remaining);
  }
}
