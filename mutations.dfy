/** The write paths of app.py: the database session the handlers share, the
    integrity rules a commit enforces, and the create, edit and delete handlers
    with the responses and flashed messages they produce. */
module Mutations {
  import opened Base
  import opened Models
  import opened Forms

  // ---------------------------------------------------------------------------
  // Pending changes and what a commit makes of them.

  /** What the database receives for an integer or timestamp column of a new
      show: NULL (field absent), a value it can convert, or text it cannot. */
  datatype Cell = Null | Int(value: int) | Malformed

  /** A Show row as submitted, before the database checks it. */
  datatype ShowRow = ShowRow(id: int, startTime: Cell, artistId: Cell, venueId: Cell)

  /** One change queued in a session. */
  datatype Change =
    | InsertVenue(venue: Venue)
    | UpdateVenue(venue: Venue)
    | DeleteVenue(venueId: int)
    | InsertArtist(artist: Artist)
    | UpdateArtist(artist: Artist)
    | InsertShow(show: ShowRow)

  /** Some stored show still refers to the venue. */
  predicate HasShows(st: Store, venueId: int)
  {
    exists k :: k in st.shows && st.shows[k].venueId == venueId
  }

  /** The stored form of a submitted show, once its foreign keys are known to be set. */
  function StoredShow(r: ShowRow): Show
    requires r.artistId.Int? && r.venueId.Int?
  {
    Show(r.id, if r.startTime.Int? then Some(r.startTime.value) else None, r.artistId.value, r.venueId.value)
  }

  /** One change applied to the store, or None when the database refuses it:
      a primary key already taken (insert) or missing (update, delete), a value
      wider than its column, a venue still referred to by a show, a show whose
      foreign keys are NULL or name no row, or a value it cannot convert. */
  function Step(st: Store, c: Change): Option<Store>
  {
    match c
    case InsertVenue(v) =>
      if v.id in st.venues || !VenueFitsColumns(v) then None
      else Some(st.(venues := st.venues[v.id := v]))
    case UpdateVenue(v) =>
      if v.id !in st.venues || !VenueFitsColumns(v) then None
      else Some(st.(venues := st.venues[v.id := v]))
    case DeleteVenue(id) =>
      if id !in st.venues || HasShows(st, id) then None
      else Some(st.(venues := st.venues - {id}))
    case InsertArtist(a) =>
      if a.id in st.artists || !ArtistFitsColumns(a) then None
      else Some(st.(artists := st.artists[a.id := a]))
    case UpdateArtist(a) =>
      if a.id !in st.artists || !ArtistFitsColumns(a) then None
      else Some(st.(artists := st.artists[a.id := a]))
    case InsertShow(r) =>
      if r.id in st.shows || r.startTime.Malformed? || !r.artistId.Int? || !r.venueId.Int? then None
      else if r.artistId.value !in st.artists || r.venueId.value !in st.venues then None
      else Some(st.(shows := st.shows[r.id := StoredShow(r)]))
  }

  /** The changes of one transaction applied in order; None as soon as one is refused. */
  function Flush(st: Store, changes: seq<Change>): Option<Store>
    decreases |changes|
  {
    if changes == [] then Some(st)
    else
      match Step(st, changes[0])
      case None => None
      case Some(next) => Flush(next, changes[1..])
  }

  /** `db.session.commit()`: the flushed store, or None when the database
      refuses a change or fails for any other reason (`fault`). */
  function Attempt(st: Store, changes: seq<Change>, fault: bool): Option<Store>
  {
    if fault then None else Flush(st, changes)
  }

  /** A transaction of one change is that change. */
  lemma AttemptOne(st: Store, c: Change, fault: bool)
    ensures Attempt(st, [c], fault) == if fault then None else Step(st, c)
  {
    assert [c][1..] == [];
    if !fault {
      match Step(st, c) {
        case None =>
        case Some(next) =>
          assert Flush(next, []) == Some(next);
      }
    }
  }

  /** A change the database accepts keeps the store consistent. */
  lemma StepPreservesConsistency(st: Store, c: Change)
    requires Consistent(st) && Step(st, c).Some?
    ensures Consistent(Step(st, c).value)
  {
    match c
    case DeleteVenue(id) =>
      var next := Step(st, c).value;
      forall k | k in next.shows
        ensures next.shows[k].venueId in next.venues
      {
        assert st.shows[k].venueId != id;
      }
    case _ =>
  }

  /** A committed transaction keeps the store consistent. */
  lemma {:induction false} FlushPreservesConsistency(st: Store, changes: seq<Change>)
    requires Consistent(st) && Flush(st, changes).Some?
    ensures Consistent(Flush(st, changes).value)
    decreases |changes|
  {
    if changes != [] {
      StepPreservesConsistency(st, changes[0]);
      FlushPreservesConsistency(Step(st, changes[0]).value, changes[1..]);
    }
  }

  /** A show is stored exactly when its id is free, its start time converts (or
      is NULL) and both foreign keys are set and name an existing artist and
      venue; nothing else changes. */
  lemma InsertShowRules(st: Store, r: ShowRow)
    ensures Step(st, InsertShow(r)).Some? <==>
      && r.id !in st.shows && !r.startTime.Malformed?
      && r.artistId.Int? && r.artistId.value in st.artists
      && r.venueId.Int? && r.venueId.value in st.venues
    ensures Step(st, InsertShow(r)).Some? ==>
      var next := Step(st, InsertShow(r)).value;
      && next == st.(shows := st.shows[r.id := StoredShow(r)])
      && next.shows[r.id] == Show(r.id, if r.startTime.Int? then Some(r.startTime.value) else None,
                                  r.artistId.value, r.venueId.value)
  {
  }

  // ---------------------------------------------------------------------------
  // The session.

  /** The database session: the committed store and the changes queued since
      the last commit or rollback. */
  class Session {
    var committed: Store
    var pending: seq<Change>

    ghost predicate Valid()
      reads this
    {
      Consistent(committed)
    }

    constructor (st: Store)
      requires Consistent(st)
      ensures Valid() && committed == st && pending == []
    {
      committed := st;
      pending := [];
    }

    /** `db.session.add(obj)`. */
    method Add(c: Change)
      modifies this
      ensures committed == old(committed) && pending == old(pending) + [c]
    {
      pending := pending + [c];
    }

    /** `db.session.commit()`: all queued changes take effect together, or none does. */
    method Commit(fault: bool) returns (ok: bool)
      requires Valid()
      modifies this
      ensures Valid()
      ensures ok <==> Attempt(old(committed), old(pending), fault).Some?
      ensures ok ==> committed == Attempt(old(committed), old(pending), fault).value && pending == []
      ensures !ok ==> committed == old(committed) && pending == old(pending)
    {
      var next := Attempt(committed, pending, fault);
      if next.None? {
        return false;
      }
      FlushPreservesConsistency(committed, pending);
      committed := next.value;
      pending := [];
      ok := true;
    }

    /** `db.session.rollback()`: the queued changes are dropped. */
    method Rollback()
      modifies this
      ensures committed == old(committed) && pending == []
    {
      pending := [];
    }

    /** `db.session.close()`: the session is released; uncommitted changes are dropped. */
    method Close()
      modifies this
      ensures committed == old(committed) && pending == []
    {
      pending := [];
    }
  }

  // ---------------------------------------------------------------------------
  // Responses.

  /** A message queued with `flash(message, category)`; Flask's default category is "message". */
  datatype Flash = Flash(message: string, category: string)

  /** Where a redirect goes. */
  datatype Target = VenueList | VenueDetailPage(venueId: int) | ArtistDetailPage(artistId: int)

  /** The HTTP answer: a redirect, the home page, a 500 error page, or the JSON
      `{"success": ...}` of the delete call. */
  datatype Response = Redirect(target: Target) | Home | ServerError | Json(success: bool)

  datatype Reply = Reply(response: Response, flashes: seq<Flash>)

  /** The store after a request and the reply it received. */
  datatype Outcome = Outcome(store: Store, reply: Reply)

  // ---------------------------------------------------------------------------
  // Records built from a submitted form.

  /** The Venue a create or edit form describes: every text field by `get`
      (None when absent), the website from the "website_link" field, the genres
      joined, and `seeking_talent` true whenever the field is present. */
  function VenueFromForm(f: Form, id: int): Venue
  {
    Venue(id, Get(f, "name"), Get(f, "city"), Get(f, "state"), Get(f, "address"), Get(f, "phone"),
      Join(GetList(f, "genres")), Get(f, "image_link"), Get(f, "website_link"), Get(f, "facebook_link"),
      SeekingFlag(f, "seeking_talent"), Get(f, "seeking_description"))
  }

  /** The Artist a create or edit form describes. */
  function ArtistFromForm(f: Form, id: int): Artist
  {
    Artist(id, Get(f, "name"), Get(f, "city"), Get(f, "state"), Get(f, "phone"),
      Join(GetList(f, "genres")), Get(f, "image_link"), Get(f, "facebook_link"),
      SeekingFlag(f, "seeking_venue"), Get(f, "seeking_description"), Get(f, "website_link"))
  }

  /** A venue built from a form reads its genres back as submitted (when there
      is at least one and none holds the delimiter), and seeks talent exactly
      when the field was submitted, whatever its value. */
  lemma VenueFromFormReadsBack(f: Form, id: int)
    ensures var v := VenueFromForm(f, id);
      && ((GetList(f, "genres") != [] && forall k :: 0 <= k < |GetList(f, "genres")| ==> !HasDelimiter(GetList(f, "genres")[k]))
          ==> Split(v.genres) == GetList(f, "genres"))
      && (v.seekingTalent <==> exists i :: 0 <= i < |f| && f[i].0 == "seeking_talent")
      && (v.name.Some? <==> exists i :: 0 <= i < |f| && f[i].0 == "name")
  {
    if GetList(f, "genres") != [] && (forall k :: 0 <= k < |GetList(f, "genres")| ==> !HasDelimiter(GetList(f, "genres")[k])) {
      GenresRoundTrip(GetList(f, "genres"));
    }
    FlagIsPresence(f, "seeking_talent");
    GetIsFirstOfList(f, "name");
  }

  /** An artist built from a form reads its genres back as submitted, and seeks
      a venue exactly when the field was submitted. */
  lemma ArtistFromFormReadsBack(f: Form, id: int)
    ensures var a := ArtistFromForm(f, id);
      && ((GetList(f, "genres") != [] && forall k :: 0 <= k < |GetList(f, "genres")| ==> !HasDelimiter(GetList(f, "genres")[k]))
          ==> Split(a.genres) == GetList(f, "genres"))
      && (a.seekingVenue <==> exists i :: 0 <= i < |f| && f[i].0 == "seeking_venue")
      && (a.name.Some? <==> exists i :: 0 <= i < |f| && f[i].0 == "name")
  {
    if GetList(f, "genres") != [] && (forall k :: 0 <= k < |GetList(f, "genres")| ==> !HasDelimiter(GetList(f, "genres")[k])) {
      GenresRoundTrip(GetList(f, "genres"));
    }
    FlagIsPresence(f, "seeking_venue");
    GetIsFirstOfList(f, "name");
  }

  // ---------------------------------------------------------------------------
  // create_venue_submission()

  /** The request as a whole: insert the venue; on failure flash the error
      (which needs the name: concatenating a missing one raises, and the
      `return` in `finally` swallows that); redirect to the list either way. */
  function CreateVenue(st: Store, f: Form, newId: int, fault: bool): Outcome
  {
    match Attempt(st, [InsertVenue(VenueFromForm(f, newId))], fault)
    case Some(next) => Outcome(next, Reply(Redirect(VenueList), []))
    case None =>
      match Get(f, "name")
      case Some(name) =>
        Outcome(st, Reply(Redirect(VenueList), [Flash("An error occurred. Venue " + name + " could not be listed.", "error")]))
      case None => Outcome(st, Reply(Redirect(VenueList), []))
  }

  method CreateVenueSubmission(db: Session, f: Form, newId: int, fault: bool) returns (reply: Reply)
    requires db.Valid() && db.pending == []
    modifies db
    ensures db.Valid() && db.pending == []
    ensures Outcome(db.committed, reply) == CreateVenue(old(db.committed), f, newId, fault)
  {
    var data := VenueFromForm(f, newId);
    db.Add(InsertVenue(data));
    assert db.pending == [InsertVenue(data)];
    var ok := db.Commit(fault);
    var flashes: seq<Flash> := [];
    if !ok {
      match Get(f, "name") {
        case Some(name) =>
          flashes := [Flash("An error occurred. Venue " + name + " could not be listed.", "error")];
          db.Rollback();
        case None =>
      }
    }
    db.Close();
    reply := Reply(Redirect(VenueList), flashes);
  }

  /** Creating a venue always redirects to the venue list. It succeeds exactly
      when the id is free, the values fit their columns and nothing else fails;
      then the new venue is the form's and nothing else changes. Otherwise the
      store is unchanged and an error is flashed exactly when a name was given. */
  lemma CreateVenueExact(st: Store, f: Form, newId: int, fault: bool)
    ensures CreateVenue(st, f, newId, fault).reply.response == Redirect(VenueList)
    ensures var o := CreateVenue(st, f, newId, fault);
      var v := VenueFromForm(f, newId);
      if !fault && newId !in st.venues && VenueFitsColumns(v) then
        && o.store == st.(venues := st.venues[newId := v])
        && o.reply.flashes == []
      else
        && o.store == st
        && (o.reply.flashes != [] <==> Get(f, "name").Some?)
  {
    AttemptOne(st, InsertVenue(VenueFromForm(f, newId)), fault);
  }

  /** "The Fillmore" submitted without a seeking_talent field is stored with
      seeking_talent false, and the reply is the redirect to the venue list. */
  lemma CreateVenueWithoutSeekingField(st: Store, newId: int)
    requires newId !in st.venues
    ensures var f := [("name", "The Fillmore")];
      var o := CreateVenue(st, f, newId, false);
      && newId in o.store.venues
      && o.store.venues[newId].name == Some("The Fillmore")
      && !o.store.venues[newId].seekingTalent
      && o.reply == Reply(Redirect(VenueList), [])
  {
    var f := [("name", "The Fillmore")];
    AttemptOne(st, InsertVenue(VenueFromForm(f, newId)), false);
    assert Get(f, "seeking_talent") == None;
    assert |Join(GetList(f, "genres"))| == 0;
  }

  // ---------------------------------------------------------------------------
  // delete_venue()

  /** The request as a whole: look the venue up, delete it and commit. A missing
      venue makes `session.delete(None)` raise before anything is queued. */
  function DeleteVenueRequest(st: Store, venueId: int, fault: bool): Outcome
  {
    if venueId !in st.venues then
      Outcome(st, Reply(Json(false), [Flash("Error deleting venue", "error")]))
    else
      match Attempt(st, [DeleteVenue(venueId)], fault)
      case Some(next) => Outcome(next, Reply(Json(true), [Flash("Venue successfully deleted!", "message")]))
      case None => Outcome(st, Reply(Json(false), [Flash("Error deleting venue", "error")]))
  }

  method DeleteVenueHandler(db: Session, venueId: int, fault: bool) returns (reply: Reply)
    requires db.Valid() && db.pending == []
    modifies db
    ensures db.Valid() && db.pending == []
    ensures Outcome(db.committed, reply) == DeleteVenueRequest(old(db.committed), venueId, fault)
  {
    var status := false;
    var flashes: seq<Flash>;
    if venueId !in db.committed.venues {
      db.Rollback();
      status := false;
      flashes := [Flash("Error deleting venue", "error")];
    } else {
      db.Add(DeleteVenue(venueId));
      assert db.pending == [DeleteVenue(venueId)];
      var ok := db.Commit(fault);
      if ok {
        status := true;
        flashes := [Flash("Venue successfully deleted!", "message")];
      } else {
        db.Rollback();
        status := false;
        flashes := [Flash("Error deleting venue", "error")];
      }
    }
    db.Close();
    reply := Reply(Json(status), flashes);
  }

  /** Deleting reports success exactly when the venue exists, no show refers to
      it and nothing else fails; then exactly that venue is gone. Otherwise the
      store is unchanged. */
  lemma DeleteVenueExact(st: Store, venueId: int, fault: bool)
    ensures var o := DeleteVenueRequest(st, venueId, fault);
      && o.reply.response.Json?
      && (o.reply.response.success <==> venueId in st.venues && !HasShows(st, venueId) && !fault)
      && (o.reply.response.success ==>
            o.store == st.(venues := st.venues - {venueId}) && venueId !in o.store.venues)
      && (!o.reply.response.success ==> o.store == st)
  {
    AttemptOne(st, DeleteVenue(venueId), fault);
  }

  /** Deleting an id that names no venue answers `{"success": false}` and changes nothing. */
  lemma DeleteMissingVenue(st: Store, venueId: int, fault: bool)
    requires venueId !in st.venues
    ensures DeleteVenueRequest(st, venueId, fault) ==
      Outcome(st, Reply(Json(false), [Flash("Error deleting venue", "error")]))
  {
  }

  // ---------------------------------------------------------------------------
  // edit_artist_submission() and edit_venue_submission()

  /** The request as a whole: overwrite the artist with the form and commit;
      redirect to the artist's page whatever happened. A missing artist makes
      the first assignment raise, and the handler rolls back. */
  function EditArtist(st: Store, artistId: int, f: Form, fault: bool): Outcome
  {
    var reply := Reply(Redirect(ArtistDetailPage(artistId)), []);
    if artistId !in st.artists then Outcome(st, reply)
    else
      match Attempt(st, [UpdateArtist(ArtistFromForm(f, artistId))], fault)
      case Some(next) => Outcome(next, reply)
      case None => Outcome(st, reply)
  }

  method EditArtistSubmission(db: Session, artistId: int, f: Form, fault: bool) returns (reply: Reply)
    requires db.Valid() && db.pending == []
    modifies db
    ensures db.Valid() && db.pending == []
    ensures Outcome(db.committed, reply) == EditArtist(old(db.committed), artistId, f, fault)
  {
    if artistId !in db.committed.artists {
      db.Rollback();
    } else {
      var data := ArtistFromForm(f, artistId);
      db.Add(UpdateArtist(data));
      assert db.pending == [UpdateArtist(data)];
      var ok := db.Commit(fault);
      if !ok {
        db.Rollback();
      }
    }
    db.Close();
    reply := Reply(Redirect(ArtistDetailPage(artistId)), []);
  }

  /** Editing an artist always redirects to its page without a message. When it
      takes effect every column of the artist is the form's (absent fields
      become NULL, the seeking flag false) and nothing else changes; otherwise
      nothing changes at all. */
  lemma EditArtistExact(st: Store, artistId: int, f: Form, fault: bool)
    ensures EditArtist(st, artistId, f, fault).reply == Reply(Redirect(ArtistDetailPage(artistId)), [])
    ensures var o := EditArtist(st, artistId, f, fault);
      var a := ArtistFromForm(f, artistId);
      if artistId in st.artists && !fault && ArtistFitsColumns(a) then
        o.store == st.(artists := st.artists[artistId := a])
      else
        o.store == st
  {
    AttemptOne(st, UpdateArtist(ArtistFromForm(f, artistId)), fault);
  }

  /** The venue edit: the same shape over the Venue table. */
  function EditVenue(st: Store, venueId: int, f: Form, fault: bool): Outcome
  {
    var reply := Reply(Redirect(VenueDetailPage(venueId)), []);
    if venueId !in st.venues then Outcome(st, reply)
    else
      match Attempt(st, [UpdateVenue(VenueFromForm(f, venueId))], fault)
      case Some(next) => Outcome(next, reply)
      case None => Outcome(st, reply)
  }

  method EditVenueSubmission(db: Session, venueId: int, f: Form, fault: bool) returns (reply: Reply)
    requires db.Valid() && db.pending == []
    modifies db
    ensures db.Valid() && db.pending == []
    ensures Outcome(db.committed, reply) == EditVenue(old(db.committed), venueId, f, fault)
  {
    if venueId !in db.committed.venues {
      db.Rollback();
    } else {
      var data := VenueFromForm(f, venueId);
      db.Add(UpdateVenue(data));
      assert db.pending == [UpdateVenue(data)];
      var ok := db.Commit(fault);
      if !ok {
        db.Rollback();
      }
    }
    db.Close();
    reply := Reply(Redirect(VenueDetailPage(venueId)), []);
  }

  /** Editing a venue always redirects to its page without a message; when it
      takes effect every column is the form's and nothing else changes. */
  lemma EditVenueExact(st: Store, venueId: int, f: Form, fault: bool)
    ensures EditVenue(st, venueId, f, fault).reply == Reply(Redirect(VenueDetailPage(venueId)), [])
    ensures var o := EditVenue(st, venueId, f, fault);
      var v := VenueFromForm(f, venueId);
      if venueId in st.venues && !fault && VenueFitsColumns(v) then
        o.store == st.(venues := st.venues[venueId := v])
      else
        o.store == st
  {
    AttemptOne(st, UpdateVenue(VenueFromForm(f, venueId)), fault);
  }

  // ---------------------------------------------------------------------------
  // create_artist_submission()

  /** The request as a whole: insert the artist, then flash and render the home
      page, or flash the error and abort with 500. Both messages concatenate the
      name, so a missing name ends in a 500 as well, even after a successful commit. */
  function CreateArtist(st: Store, f: Form, newId: int, fault: bool): Outcome
  {
    match Attempt(st, [InsertArtist(ArtistFromForm(f, newId))], fault)
    case Some(next) =>
      (match Get(f, "name")
       case Some(name) => Outcome(next, Reply(Home, [Flash("Artist " + name + " was successfully listed!", "message")]))
       case None => Outcome(next, Reply(ServerError, [])))
    case None =>
      match Get(f, "name")
      case Some(name) =>
        Outcome(st, Reply(ServerError, [Flash("An error occurred. Artist " + name + " could not be listed.", "message")]))
      case None => Outcome(st, Reply(ServerError, []))
  }

  method CreateArtistSubmission(db: Session, f: Form, newId: int, fault: bool) returns (reply: Reply)
    requires db.Valid() && db.pending == []
    modifies db
    ensures db.Valid() && db.pending == []
    ensures Outcome(db.committed, reply) == CreateArtist(old(db.committed), f, newId, fault)
  {
    var error := false;
    var data := ArtistFromForm(f, newId);
    db.Add(InsertArtist(data));
    assert db.pending == [InsertArtist(data)];
    var ok := db.Commit(fault);
    if !ok {
      error := true;
      db.Rollback();
    }
    db.Close();
    var name := Get(f, "name");
    if !error {
      if name.None? {
        reply := Reply(ServerError, []);
      } else {
        reply := Reply(Home, [Flash("Artist " + name.value + " was successfully listed!", "message")]);
      }
    } else {
      if name.None? {
        reply := Reply(ServerError, []);
      } else {
        reply := Reply(ServerError, [Flash("An error occurred. Artist " + name.value + " could not be listed.", "message")]);
      }
    }
  }

  /** Creating an artist renders the home page exactly when the insert commits
      and a name was given; otherwise the answer is a 500. The store gains
      exactly the form's artist when the insert commits, and is unchanged when it fails. */
  lemma CreateArtistExact(st: Store, f: Form, newId: int, fault: bool)
    ensures var o := CreateArtist(st, f, newId, fault);
      var a := ArtistFromForm(f, newId);
      var commits := !fault && newId !in st.artists && ArtistFitsColumns(a);
      && (o.reply.response == Home <==> commits && Get(f, "name").Some?)
      && (o.reply.response != Home ==> o.reply.response == ServerError)
      && (commits ==> o.store == st.(artists := st.artists[newId := a]))
      && (!commits ==> o.store == st)
  {
    AttemptOne(st, InsertArtist(ArtistFromForm(f, newId)), fault);
  }

  /** "Jane Doe" with genres Jazz and Blues is stored with the genre string
      "Jazz, Blues", which reads back as the two genres. */
  lemma CreateArtistWithGenres(st: Store, newId: int)
    requires newId !in st.artists
    ensures var f := [("name", "Jane Doe"), ("genres", "Jazz"), ("genres", "Blues")];
      var o := CreateArtist(st, f, newId, false);
      && newId in o.store.artists
      && o.store.artists[newId].genres == "Jazz, Blues"
      && Split(o.store.artists[newId].genres) == ["Jazz", "Blues"]
      && o.reply.response == Home
  {
    var f := [("name", "Jane Doe"), ("genres", "Jazz"), ("genres", "Blues")];
    assert f[1..][1..][1..] == [];
    assert GetList(f, "genres") == ["Jazz", "Blues"];
    JazzBluesRoundTrip();
    var a := ArtistFromForm(f, newId);
    forall key | key in {"city", "state", "phone", "image_link", "facebook_link", "website_link"}
      ensures Get(f, key) == None
    {
      GetIsFirstOfList(f, key);
    }
    assert Get(f, "name") == Some("Jane Doe");
    assert ArtistFitsColumns(a);
    CreateArtistExact(st, f, newId, false);
  }

  // ---------------------------------------------------------------------------
  // create_show_submission()

  /** How the database reads a submitted value into an integer or timestamp
      column: an absent field is NULL, and text `parse` rejects is an error. */
  function Coerce(raw: Option<string>, parse: string -> Option<int>): Cell
  {
    match raw
    case None => Null
    case Some(text) =>
      match parse(text)
      case None => Malformed
      case Some(n) => Int(n)
  }

  /** The Show row a form describes. */
  function ShowFromForm(f: Form, newId: int, parseId: string -> Option<int>, parseTime: string -> Option<int>): ShowRow
  {
    ShowRow(newId, Coerce(Get(f, "start_time"), parseTime),
      Coerce(Get(f, "artist_id"), parseId), Coerce(Get(f, "venue_id"), parseId))
  }

  /** The request as a whole: insert the show; flash and render the home page,
      or flash the error and abort with 500. */
  function CreateShow(st: Store, f: Form, newId: int,
                      parseId: string -> Option<int>, parseTime: string -> Option<int>, fault: bool): Outcome
  {
    match Attempt(st, [InsertShow(ShowFromForm(f, newId, parseId, parseTime))], fault)
    case Some(next) => Outcome(next, Reply(Home, [Flash("Show was successfully listed!", "message")]))
    case None => Outcome(st, Reply(ServerError, [Flash("An error occurred. Show could not be listed.", "message")]))
  }

  method CreateShowSubmission(db: Session, f: Form, newId: int,
                              parseId: string -> Option<int>, parseTime: string -> Option<int>, fault: bool)
    returns (reply: Reply)
    requires db.Valid() && db.pending == []
    modifies db
    ensures db.Valid() && db.pending == []
    ensures Outcome(db.committed, reply) == CreateShow(old(db.committed), f, newId, parseId, parseTime, fault)
  {
    var error := false;
    var data := ShowFromForm(f, newId, parseId, parseTime);
    db.Add(InsertShow(data));
    assert db.pending == [InsertShow(data)];
    var ok := db.Commit(fault);
    if !ok {
      error := true;
      db.Rollback();
    }
    db.Close();
    if !error {
      reply := Reply(Home, [Flash("Show was successfully listed!", "message")]);
    } else {
      reply := Reply(ServerError, [Flash("An error occurred. Show could not be listed.", "message")]);
    }
  }

  /** Creating a show renders the home page exactly when the row is stored: its
      id is free, both ids were submitted, convert and name an existing artist
      and venue, and the start time is absent or converts. Otherwise the answer
      is a 500 and the store is unchanged. */
  lemma CreateShowExact(st: Store, f: Form, newId: int,
                        parseId: string -> Option<int>, parseTime: string -> Option<int>, fault: bool)
    ensures var o := CreateShow(st, f, newId, parseId, parseTime, fault);
      var r := ShowFromForm(f, newId, parseId, parseTime);
      var stored := !fault && newId !in st.shows && !r.startTime.Malformed?
        && r.artistId.Int? && r.artistId.value in st.artists
        && r.venueId.Int? && r.venueId.value in st.venues;
      && (o.reply.response == Home <==> stored)
      && (!stored ==> o.reply.response == ServerError && o.store == st)
      && (stored ==> o.store == st.(shows := st.shows[newId := StoredShow(r)]))
  {
    InsertShowRules(st, ShowFromForm(f, newId, parseId, parseTime));
    AttemptOne(st, InsertShow(ShowFromForm(f, newId, parseId, parseTime)), fault);
  }

  /** A show naming an artist id that is not in the store is refused: the reply
      is a 500 and no show is stored under the new id. */
  lemma CreateShowUnknownArtist(st: Store, f: Form, newId: int,
                                parseId: string -> Option<int>, parseTime: string -> Option<int>, fault: bool)
    requires newId !in st.shows
    requires Get(f, "artist_id").Some? && parseId(Get(f, "artist_id").value).Some?
    requires parseId(Get(f, "artist_id").value).value !in st.artists
    ensures var o := CreateShow(st, f, newId, parseId, parseTime, fault);
      o.reply.response == ServerError && o.store == st && newId !in o.store.shows
  {
    CreateShowExact(st, f, newId, parseId, parseTime, fault);
  }

  /** No request leaves a consistent store inconsistent. */
  lemma RequestsPreserveConsistency(st: Store, f: Form, id: int, fault: bool,
                                    parseId: string -> Option<int>, parseTime: string -> Option<int>)
    requires Consistent(st)
    ensures Consistent(CreateVenue(st, f, id, fault).store)
    ensures Consistent(DeleteVenueRequest(st, id, fault).store)
    ensures Consistent(EditArtist(st, id, f, fault).store)
    ensures Consistent(EditVenue(st, id, f, fault).store)
    ensures Consistent(CreateArtist(st, f, id, fault).store)
    ensures Consistent(CreateShow(st, f, id, parseId, parseTime, fault).store)
  {
    var changes := [InsertVenue(VenueFromForm(f, id)), DeleteVenue(id), UpdateArtist(ArtistFromForm(f, id)),
      UpdateVenue(VenueFromForm(f, id)), InsertArtist(ArtistFromForm(f, id)),
      InsertShow(ShowFromForm(f, id, parseId, parseTime))];
    // each handler commits a transaction of one of these changes, or nothing
    forall c | c in changes && Attempt(st, [c], fault).Some?
      ensures Consistent(Attempt(st, [c], fault).value)
    {
      FlushPreservesConsistency(st, [c]);
    }
  }
}
