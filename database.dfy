/** The relational store behind the services: one map per table from row id to row, the set of file
    names present in the uploads directory, and the primitive writes the services issue (create,
    update, delete with the schema's ON DELETE CASCADE). */
module Store {
  import opened Domain

  // ---------------------------------------------------------------- relations

  /** Ids of the media rows attached to publication `pid`. */
  function MediaOf(media: map<int, Media>, pid: int): set<int> {
    set id | id in media && media[id].publicationId == pid
  }

  /** Ids of the media rows attached to any publication in `pids`. */
  function MediaOfPublications(media: map<int, Media>, pids: set<int>): set<int> {
    set id | id in media && media[id].publicationId in pids
  }

  /** Ids of the publications owned by any client in `cids`. */
  function PublicationsOfClients(pubs: map<int, Publication>, cids: set<int>): set<int> {
    set id | id in pubs && pubs[id].clientId in cids
  }

  /** Ids of the client rows of user `uid`. */
  function ClientsOfUser(clients: map<int, Client>, uid: int): set<int> {
    set id | id in clients && clients[id].userId == uid
  }

  /** Ids of the calendar notes of user `uid`. */
  function NotesOfUser(notes: map<int, CalendarNote>, uid: int): set<int> {
    set id | id in notes && notes[id].userId == uid
  }

  /** Every key of a table lies between 1 and its autoincrement counter. */
  ghost predicate IdsBelow<T>(table: map<int, T>, next: int) {
    1 <= next && forall id :: id in table ==> 1 <= id < next
  }

  /** A non-empty set has an element (the witness `:|` needs). */
  lemma HasElement(s: set<int>)
    requires s != {}
    ensures exists x :: x in s
  {
    if forall x :: x !in s {
      assert false;
    }
  }

  /** Whether a user other than `uid` already has `email` (the unique index on users.email). */
  predicate EmailTaken(users: map<int, User>, email: string, uid: int) {
    exists id :: id in users && id != uid && users[id].email == email
  }

  /** The names under `uploads/` of the stored files of the media rows `mids` (rows with an empty
      url are skipped). */
  function StoredFileNames(media: map<int, Media>, mids: set<int>): (r: set<string>)
    ensures forall mid :: mid in mids && mid in media && media[mid].url != "" ==> UploadFileName(media[mid].url) in r
    ensures forall name :: name in r ==> exists mid :: mid in mids && mid in media && UploadFileName(media[mid].url) == name
  {
    set mid | mid in mids && mid in media && media[mid].url != "" :: UploadFileName(media[mid].url)
  }

  /** The uploads directory after trying to unlink `name`: a failing unlink leaves it in place. */
  function Unlinked(files: set<string>, name: string, unlinkFails: set<string>): (r: set<string>)
    ensures r <= files && files - r <= {name}
    ensures name in files && name !in unlinkFails ==> name !in r
  {
    if name in unlinkFails then files else files - {name}
  }

  /** The uploads directory after trying to unlink every name in `names`. */
  function UnlinkedAll(files: set<string>, names: set<string>, unlinkFails: set<string>): (r: set<string>)
    ensures r == files - (names - unlinkFails)
  {
    files - (names - unlinkFails)
  }

  // ---------------------------------------------------------------- the store

  class Database {
    var publications: map<int, Publication>
    var media: map<int, Media>
    var clients: map<int, Client>
    var users: map<int, User>
    var notes: map<int, CalendarNote>
    /** Names of the files present in the uploads directory. */
    var files: set<string>
    var nextPublicationId: int
    var nextMediaId: int
    var nextClientId: int
    var nextUserId: int
    var nextNoteId: int

    /** Foreign keys hold, the unique indexes hold, and every counter is above its table's keys. */
    ghost predicate Valid()
      reads this
    {
      && (forall id :: id in media ==> media[id].publicationId in publications)
      && (forall id :: id in publications ==> publications[id].clientId in clients)
      && (forall id :: id in clients ==> clients[id].userId in users)
      && (forall id :: id in notes ==> notes[id].userId in users)
      && (forall a, b :: a in clients && b in clients && clients[a].userId == clients[b].userId ==> a == b)
      && (forall a, b :: a in users && b in users && users[a].email == users[b].email ==> a == b)
      && IdsBelow(publications, nextPublicationId)
      && IdsBelow(media, nextMediaId)
      && IdsBelow(clients, nextClientId)
      && IdsBelow(users, nextUserId)
      && IdsBelow(notes, nextNoteId)
    }

    constructor ()
      ensures Valid()
      ensures publications == map[] && media == map[] && clients == map[] && users == map[]
      ensures notes == map[] && files == {}
    {
      publications, media, clients, users, notes := map[], map[], map[], map[], map[];
      files := {};
      nextPublicationId, nextMediaId, nextClientId, nextUserId, nextNoteId := 1, 1, 1, 1, 1;
    }

    /** The id a client row of `uid` has, if any (the unique index on clients.user_id). */
    function ClientOfUser(uid: int): (r: Option<int>)
      reads this
      requires Valid()
      ensures r.Some? <==> ClientsOfUser(clients, uid) != {}
      ensures r.Some? ==> ClientsOfUser(clients, uid) == {r.value}
    {
      if cid :| cid in clients && clients[cid].userId == uid then
        assert cid in ClientsOfUser(clients, uid);
        assert forall x :: x in ClientsOfUser(clients, uid) <==> x == cid;
        Some(cid)
      else
        None
    }

    // ------------------------------------------------------------ inserts

    method InsertPublication(p: Publication) returns (id: int)
      requires Valid() && p.clientId in clients
      modifies this
      ensures Valid()
      ensures id !in old(publications) && publications == old(publications)[id := p]
      ensures media == old(media) && clients == old(clients) && users == old(users)
      ensures notes == old(notes) && files == old(files)
    {
      id := nextPublicationId;
      publications := publications[id := p];
      nextPublicationId := nextPublicationId + 1;
    }

    method InsertMedia(m: Media) returns (id: int)
      requires Valid() && m.publicationId in publications
      modifies this
      ensures Valid()
      ensures id !in old(media) && media == old(media)[id := m]
      ensures publications == old(publications) && clients == old(clients) && users == old(users)
      ensures notes == old(notes) && files == old(files)
    {
      id := nextMediaId;
      media := media[id := m];
      nextMediaId := nextMediaId + 1;
    }

    method InsertClient(c: Client) returns (id: int)
      requires Valid() && c.userId in users
      requires forall k :: k in clients ==> clients[k].userId != c.userId
      modifies this
      ensures Valid()
      ensures id !in old(clients) && clients == old(clients)[id := c]
      ensures publications == old(publications) && media == old(media) && users == old(users)
      ensures notes == old(notes) && files == old(files)
    {
      id := nextClientId;
      clients := clients[id := c];
      nextClientId := nextClientId + 1;
    }

    method InsertUser(u: User) returns (id: int)
      requires Valid() && !EmailTaken(users, u.email, 0)
      modifies this
      ensures Valid()
      ensures id !in old(users) && users == old(users)[id := u]
      ensures publications == old(publications) && media == old(media) && clients == old(clients)
      ensures notes == old(notes) && files == old(files)
    {
      id := nextUserId;
      users := users[id := u];
      nextUserId := nextUserId + 1;
    }

    method InsertNote(n: CalendarNote) returns (id: int)
      requires Valid() && n.userId in users
      modifies this
      ensures Valid()
      ensures id !in old(notes) && notes == old(notes)[id := n]
      ensures publications == old(publications) && media == old(media) && clients == old(clients)
      ensures users == old(users) && files == old(files)
    {
      id := nextNoteId;
      notes := notes[id := n];
      nextNoteId := nextNoteId + 1;
    }

    // ------------------------------------------------------------ the uploads directory

    /** `fs.unlink` of one stored file: a failure is only logged by the callers. */
    method Unlink(name: string, unlinkFails: set<string>)
      requires Valid()
      modifies this
      ensures Valid()
      ensures files == Unlinked(old(files), name, unlinkFails)
      ensures publications == old(publications) && media == old(media) && clients == old(clients)
      ensures users == old(users) && notes == old(notes)
    {
      files := Unlinked(files, name, unlinkFails);
    }

    /** `fs.unlink` of several stored files, each failure only logged. */
    method UnlinkAll(names: set<string>, unlinkFails: set<string>)
      requires Valid()
      modifies this
      ensures Valid()
      ensures files == UnlinkedAll(old(files), names, unlinkFails)
      ensures publications == old(publications) && media == old(media) && clients == old(clients)
      ensures users == old(users) && notes == old(notes)
    {
      files := UnlinkedAll(files, names, unlinkFails);
    }

    // ------------------------------------------------------------ deletes (with cascade)

    /** Deletes media rows; nothing refers to them. */
    method DeleteMediaRows(ids: set<int>)
      requires Valid()
      modifies this
      ensures Valid()
      ensures media == old(media) - ids
      ensures publications == old(publications) && clients == old(clients) && users == old(users)
      ensures notes == old(notes) && files == old(files)
    {
      media := media - ids;
    }

    /** Deletes publications and, by cascade, their media. */
    method DeletePublications(pids: set<int>)
      requires Valid()
      modifies this
      ensures Valid()
      ensures publications == old(publications) - pids
      ensures media == old(media) - MediaOfPublications(old(media), pids)
      ensures clients == old(clients) && users == old(users) && notes == old(notes) && files == old(files)
    {
      media := media - MediaOfPublications(media, pids);
      publications := publications - pids;
    }

    /** Deletes clients and, by cascade, their publications and those publications' media. */
    method DeleteClients(cids: set<int>)
      requires Valid()
      modifies this
      ensures Valid()
      ensures clients == old(clients) - cids
      ensures publications == old(publications) - PublicationsOfClients(old(publications), cids)
      ensures media == old(media)
        - MediaOfPublications(old(media), PublicationsOfClients(old(publications), cids))
      ensures users == old(users) && notes == old(notes) && files == old(files)
    {
      DeletePublications(PublicationsOfClients(publications, cids));
      clients := clients - cids;
    }

    // ------------------------------------------------------------ updates

    /** Rewrites the client row `cid`; its user stays the same. */
    method UpdateClientRow(cid: int, c: Client)
      requires Valid() && cid in clients && c.userId == clients[cid].userId
      modifies this
      ensures Valid()
      ensures clients == old(clients)[cid := c]
      ensures publications == old(publications) && media == old(media) && users == old(users)
      ensures notes == old(notes) && files == old(files)
    {
      clients := clients[cid := c];
    }

    /** Rewrites the user row `uid` with an email no other user has. */
    method UpdateUserRow(uid: int, u: User)
      requires Valid() && uid in users && !EmailTaken(users, u.email, uid)
      modifies this
      ensures Valid()
      ensures users == old(users)[uid := u]
      ensures publications == old(publications) && media == old(media) && clients == old(clients)
      ensures notes == old(notes) && files == old(files)
    {
      users := users[uid := u];
    }

    /** Rewrites the calendar note `id`; its owner stays the same. */
    method UpdateNoteRow(id: int, n: CalendarNote)
      requires Valid() && id in notes && n.userId == notes[id].userId
      modifies this
      ensures Valid()
      ensures notes == old(notes)[id := n]
      ensures publications == old(publications) && media == old(media) && clients == old(clients)
      ensures users == old(users) && files == old(files)
    {
      notes := notes[id := n];
    }

    /** Deletes the calendar note `id`. */
    method DeleteNoteRow(id: int)
      requires Valid()
      modifies this
      ensures Valid()
      ensures notes == old(notes) - {id}
      ensures publications == old(publications) && media == old(media) && clients == old(clients)
      ensures users == old(users) && files == old(files)
    {
      notes := notes - {id};
    }

    /** Deletes a user and, by cascade, their client rows (with everything below them) and notes. */
    method DeleteUserRow(uid: int)
      requires Valid()
      modifies this
      ensures Valid()
      ensures users == old(users) - {uid}
      ensures clients == old(clients) - ClientsOfUser(old(clients), uid)
      ensures publications == old(publications)
        - PublicationsOfClients(old(publications), ClientsOfUser(old(clients), uid))
      ensures media == old(media) - MediaOfPublications(old(media),
        PublicationsOfClients(old(publications), ClientsOfUser(old(clients), uid)))
      ensures notes == old(notes) - NotesOfUser(old(notes), uid)
      ensures files == old(files)
    {
      DeleteClients(ClientsOfUser(clients, uid));
      notes := notes - NotesOfUser(notes, uid);
      users := users - {uid};
    }
  }
}
