/** Attaching media to a publication (the MIME family must match its content type) and detaching it
    (the last one detached from a PUBLISHED or SCHEDULED publication sends it back to DRAFT). */
module MediaService {
  import opened Strings
  import opened Domain
  import opened Store
  import PublicationService

  const PublicationMissingMessage := "La publicación especificada no existe."
  const ReelNeedsVideoMessage := "Tipo de archivo inválido para REEL: se requiere video."
  const PostNeedsImageMessage := "Tipo de archivo inválido para POST: se requiere imagen."

  /** Whether `createMedia` accepts MIME `mediaType` for a publication of type `t`, after lower-casing. */
  predicate Compatible(t: ContentType, mediaType: string) {
    ToLower(mediaType) in AcceptedTypes(t)
  }

  function Other(t: ContentType): ContentType {
    if t == POST then REEL else POST
  }

  /** What one content type accepts is exactly what a change to the other content type sweeps away. */
  lemma AcceptedIsSweptByOther(t: ContentType, mediaType: string)
    ensures Compatible(t, mediaType) <==> PublicationService.Incompatible(Other(t), mediaType)
  {
  }

  /** `createMedia`: the publication must exist and the MIME must belong to its content type's family;
      the row stores the MIME and url exactly as given. */
  method CreateMedia(db: Database, pid: int, mediaType: string, url: string) returns (r: Result<int>)
    requires db.Valid()
    modifies db
    ensures db.Valid()
    ensures r.Err? ==> unchanged(db)
    ensures pid !in old(db.publications) ==> r == Err(Thrown(PublicationMissingMessage))
    ensures pid in old(db.publications) && old(db.publications)[pid].contentType == REEL
            && !Compatible(REEL, mediaType)
            ==> r == Err(Thrown(ReelNeedsVideoMessage))
    ensures pid in old(db.publications) && old(db.publications)[pid].contentType == POST
            && !Compatible(POST, mediaType)
            ==> r == Err(Thrown(PostNeedsImageMessage))
    ensures r.Ok? <==> pid in old(db.publications) && Compatible(old(db.publications)[pid].contentType, mediaType)
    ensures r.Ok? ==>
      && r.value !in old(db.media)
      && db.media == old(db.media)[r.value := Media(pid, mediaType, url)]
      && db.publications == old(db.publications) && db.clients == old(db.clients)
      && db.users == old(db.users) && db.notes == old(db.notes) && db.files == old(db.files)
  {
    if pid !in db.publications {
      return Err(Thrown(PublicationMissingMessage));
    }
    var t := db.publications[pid].contentType;
    if t == REEL && !Compatible(REEL, mediaType) {
      return Err(Thrown(ReelNeedsVideoMessage));
    }
    if t == POST && !Compatible(POST, mediaType) {
      return Err(Thrown(PostNeedsImageMessage));
    }
    var id := db.InsertMedia(Media(pid, mediaType, url));
    r := Ok(id);
  }

  /** What `deleteMedia` reports: the removed row, the publication as rewritten to DRAFT if it was
      reverted, and how many media the publication still has. */
  datatype Detached = Detached(media: Media, reverted: Option<Publication>, remaining: nat)

  /** The statuses a publication leaves for DRAFT when its last media goes. */
  predicate Live(s: Status) {
    s == PUBLISHED || s == SCHEDULED
  }

  /** `deleteMedia`: finds the row by id and publication, unlinks its file (a failure is only
      logged), deletes the row, recounts, and reverts a PUBLISHED or SCHEDULED publication left
      without media to DRAFT. */
  method DeleteMedia(db: Database, pid: int, mid: int, unlinkFails: set<string>) returns (r: Option<Detached>)
    requires db.Valid()
    modifies db
    ensures db.Valid()
    ensures db.clients == old(db.clients) && db.users == old(db.users) && db.notes == old(db.notes)
    ensures r.None? <==> mid !in old(db.media) || old(db.media)[mid].publicationId != pid
    ensures r.None? ==> unchanged(db)
    ensures r.Some? ==>
      && r.value.media == old(db.media)[mid]
      && db.media == old(db.media) - {mid}
      && db.files == Unlinked(old(db.files), old(db.media)[mid].url, unlinkFails)
      && r.value.remaining == |MediaOf(db.media, pid)|
      && (r.value.reverted.Some? <==> r.value.remaining == 0 && Live(old(db.publications)[pid].status))
      && (r.value.reverted.Some? ==>
            r.value.reverted.value == old(db.publications)[pid].(status := DRAFT)
            && db.publications == old(db.publications)[pid := r.value.reverted.value])
      && (r.value.reverted.None? ==> db.publications == old(db.publications))
  {
    if mid !in db.media || db.media[mid].publicationId != pid {
      return None;
    }
    var m := db.media[mid];
    var p := db.publications[pid];
    db.Unlink(m.url, unlinkFails);
    db.DeleteMediaRows({mid});
    var remaining := |MediaOf(db.media, pid)|;
    var reverted: Option<Publication> := None;
    if remaining == 0 && Live(p.status) {
      reverted := Some(p.(status := DRAFT));
      db.publications := db.publications[pid := reverted.value];
    }
    r := Some(Detached(m, reverted, remaining));
  }

  /** Detaching a row leaves the publication with one media fewer. */
  lemma DetachCountsDown(media: map<int, Media>, mid: int)
    requires mid in media
    ensures |MediaOf(media - {mid}, media[mid].publicationId)| + 1 == |MediaOf(media, media[mid].publicationId)|
  {
    var pid := media[mid].publicationId;
    assert MediaOf(media, pid) == MediaOf(media - {mid}, pid) + {mid};
  }

  /** A publication keeps its status when the media detached was not its last. */
  lemma NonLastDetachKeepsStatus(media: map<int, Media>, mid: int)
    requires mid in media && |MediaOf(media, media[mid].publicationId)| >= 2
    ensures |MediaOf(media - {mid}, media[mid].publicationId)| > 0
  {
    DetachCountsDown(media, mid);
  }

  // ---------------------------------------------------------------- getMediaStats

  datatype Stats = Stats(total: nat, images: nat, videos: nat)

  function ImagesOf(media: map<int, Media>, pid: int): set<int> {
    set id | id in media && media[id].publicationId == pid && "image/" <= media[id].mediaType
  }

  function VideosOf(media: map<int, Media>, pid: int): set<int> {
    set id | id in media && media[id].publicationId == pid && "video/" <= media[id].mediaType
  }

  /** `getMediaStats`: three counts over the publication's media, by case-sensitive MIME prefix. */
  function MediaStats(media: map<int, Media>, pid: int): (r: Stats)
    ensures r.images + r.videos <= r.total
  {
    var all, images, videos := MediaOf(media, pid), ImagesOf(media, pid), VideosOf(media, pid);
    assert images * videos == {} by {
      forall id | id in images ensures id !in videos {
        assert media[id].mediaType[0] == 'i';
      }
    }
    assert images + videos <= all;
    SubsetCardinality(images + videos, all);
    Stats(|all|, |images|, |videos|)
  }

  lemma {:induction false} SubsetCardinality<T>(a: set<T>, b: set<T>)
    requires a <= b
    ensures |a| <= |b|
    decreases |b|
  {
    if a != {} {
      var x :| x in a;
      SubsetCardinality(a - {x}, b - {x});
    }
  }
}
