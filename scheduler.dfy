/** The scheduler tick: under an in-memory `isRunning` guard, find the SCHEDULED publications that are
    due and have media, and mark them PUBLISHED in one bulk update keyed by id alone. */
module PublicationScheduler {
  import opened Domain
  import opened Store

  /** The candidate query: SCHEDULED, publish date not after `now`, at least one media row. */
  predicate Due(pubs: map<int, Publication>, media: map<int, Media>, now: int, id: int)
    requires id in pubs
  {
    pubs[id].status == SCHEDULED && pubs[id].publishDate <= now && MediaOf(media, id) != {}
  }

  function DueIds(pubs: map<int, Publication>, media: map<int, Media>, now: int): (r: set<int>)
    ensures r <= pubs.Keys
  {
    set id | id in pubs && Due(pubs, media, now, id)
  }

  /** The bulk update `updateMany({ where: { id: { in: ids } }, data: { status: PUBLISHED } })`: it
      filters on the ids alone, not on the status they had when they were selected. */
  function PublishAll(pubs: map<int, Publication>, ids: set<int>): (r: map<int, Publication>)
    ensures r.Keys == pubs.Keys
    ensures forall id :: id in pubs && id in ids ==> r[id] == pubs[id].(status := PUBLISHED)
    ensures forall id :: id in pubs && id !in ids ==> r[id] == pubs[id]
  {
    map id | id in pubs :: if id in ids then pubs[id].(status := PUBLISHED) else pubs[id]
  }

  class Scheduler {
    /** Set while a tick is between its query and its update. */
    var isRunning: bool

    constructor ()
      ensures !isRunning
    {
      isRunning := false;
    }

    /** One tick. `queryFails` and `updateFails` stand for the store throwing at either step; the
        error is caught and logged, and the guard is released on every path that started work. */
    method CheckAndPublish(db: Database, now: int, queryFails: bool, updateFails: bool)
      requires db.Valid()
      modifies this, db
      ensures db.Valid()
      ensures old(isRunning) ==> isRunning && unchanged(db)
      ensures !old(isRunning) ==> !isRunning
      ensures db.media == old(db.media) && db.clients == old(db.clients) && db.users == old(db.users)
      ensures db.notes == old(db.notes) && db.files == old(db.files)
      ensures queryFails || updateFails ==> db.publications == old(db.publications)
      ensures !old(isRunning) && !queryFails && !updateFails ==>
        db.publications == PublishAll(old(db.publications), DueIds(old(db.publications), old(db.media), now))
    {
      if isRunning {
        return;
      }
      isRunning := true;
      if queryFails {
        isRunning := false;
        return;
      }
      var ids := DueIds(db.publications, db.media, now);
      if ids == {} {
        assert PublishAll(db.publications, ids) == db.publications;
        isRunning := false;
        return;
      }
      if !updateFails {
        db.publications := PublishAll(db.publications, ids);
      }
      isRunning := false;
    }
  }

  /** A tick promotes exactly the due publications and changes nothing but their status. */
  lemma TickPromotesExactlyDue(pubs: map<int, Publication>, media: map<int, Media>, now: int)
    ensures var after := PublishAll(pubs, DueIds(pubs, media, now));
      && after.Keys == pubs.Keys
      && (forall id :: id in pubs ==>
            (after[id].status == PUBLISHED && pubs[id].status != PUBLISHED <==> Due(pubs, media, now, id)))
      && (forall id :: id in pubs ==>
            after[id].(status := pubs[id].status) == pubs[id])
  {
  }

  /** A second tick at the same instant, with nothing else changed, finds no candidate. */
  lemma {:induction false} SecondTickIsIdle(pubs: map<int, Publication>, media: map<int, Media>, now: int)
    ensures DueIds(PublishAll(pubs, DueIds(pubs, media, now)), media, now) == {}
  {
    var after := PublishAll(pubs, DueIds(pubs, media, now));
    forall id | id in after
      ensures !Due(after, media, now, id)
    {
      if id in DueIds(pubs, media, now) {
        assert after[id].status == PUBLISHED;
      } else {
        assert after[id] == pubs[id];
      }
    }
  }

  /** A SCHEDULED publication that is due but has no media stays SCHEDULED. */
  lemma NoMediaNoPromotion(pubs: map<int, Publication>, media: map<int, Media>, now: int, id: int)
    requires id in pubs && pubs[id].status == SCHEDULED && MediaOf(media, id) == {}
    ensures PublishAll(pubs, DueIds(pubs, media, now))[id].status == SCHEDULED
  {
  }

  /** The bulk update keys on ids alone: a publication selected as due and moved back to DRAFT
      before the update runs is still marked PUBLISHED. */
  lemma StaleSelectionStillPublished(pubs: map<int, Publication>, media: map<int, Media>, now: int, id: int)
    requires id in DueIds(pubs, media, now)
    ensures var edited := pubs[id := pubs[id].(status := DRAFT)];
      PublishAll(edited, DueIds(pubs, media, now))[id].status == PUBLISHED
  {
  }
}
