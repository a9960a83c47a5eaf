/** The three tables of the booking directory (models.py) and the integrity
    rules the relational store enforces on them. */
module Models {
  import opened Base

  /** A nullable VARCHAR column: None stands for SQL NULL. */
  type Text = Option<string>

  /** A row of the Venue table. `genres` holds the ", "-joined genre list. */
  datatype Venue = Venue(
    id: int,
    name: Text,
    city: Text,
    state: Text,
    address: Text,
    phone: Text,
    genres: string,
    imageLink: Text,
    website: Text,
    facebookLink: Text,
    seekingTalent: bool,
    seekingDescription: Text)

  /** A row of the Artist table. */
  datatype Artist = Artist(
    id: int,
    name: Text,
    city: Text,
    state: Text,
    phone: Text,
    genres: string,
    imageLink: Text,
    facebookLink: Text,
    seekingVenue: bool,
    seekingDescription: Text,
    website: Text)

  /** A stored row of the Show table. Both foreign keys are declared NOT NULL,
      so a stored show always has them; the start time is nullable. */
  datatype Show = Show(id: int, startTime: Option<int>, artistId: int, venueId: int)

  /** The database: each table keyed by its integer primary key. */
  datatype Store = Store(venues: map<int, Venue>, artists: map<int, Artist>, shows: map<int, Show>)

  /** VARCHAR(limit): NULL or at most `limit` characters. */
  predicate Fits(t: Text, limit: nat)
  {
    t.None? || |t.value| <= limit
  }

  /** The declared column widths of the Venue table. */
  predicate VenueFitsColumns(v: Venue)
  {
    && Fits(v.name, 500) && Fits(v.city, 500) && Fits(v.state, 500)
    && Fits(v.address, 500) && Fits(v.phone, 500) && |v.genres| <= 500
    && Fits(v.imageLink, 500) && Fits(v.website, 500) && Fits(v.facebookLink, 200)
    && Fits(v.seekingDescription, 500)
  }

  /** The declared column widths of the Artist table; `name` and
      `seeking_description` are unbounded. */
  predicate ArtistFitsColumns(a: Artist)
  {
    && Fits(a.city, 120) && Fits(a.state, 120) && Fits(a.phone, 120)
    && |a.genres| <= 120 && Fits(a.imageLink, 500) && Fits(a.facebookLink, 120)
    && Fits(a.website, 120)
  }

  /** Everything the store guarantees of its contents: each row sits under its
      own primary key, fits its columns, and every show's foreign keys resolve. */
  predicate Consistent(st: Store)
  {
    && (forall k :: k in st.venues ==> st.venues[k].id == k && VenueFitsColumns(st.venues[k]))
    && (forall k :: k in st.artists ==> st.artists[k].id == k && ArtistFitsColumns(st.artists[k]))
    && (forall k :: k in st.shows ==>
          st.shows[k].id == k && st.shows[k].artistId in st.artists && st.shows[k].venueId in st.venues)
  }

  /** `rows` is the Show table read in some scan order: every row once. */
  predicate ShowScan(rows: seq<Show>, st: Store)
  {
    && (forall i :: 0 <= i < |rows| ==> rows[i].id in st.shows && st.shows[rows[i].id] == rows[i])
    && (forall i, j :: 0 <= i < j < |rows| ==> rows[i].id != rows[j].id)
    && (forall k :: k in st.shows ==> exists i :: 0 <= i < |rows| && rows[i].id == k)
  }

  /** Every show in `rows` names an artist and a venue present in the store:
      what a `.one()` lookup of either needs in order not to raise. */
  predicate Resolves(st: Store, rows: seq<Show>)
  {
    forall s :: s in rows ==> s.artistId in st.artists && s.venueId in st.venues
  }

  /** `Venue.shows`: the shows whose venue_id is this venue's id, in scan order. */
  function VenueShows(rows: seq<Show>, venueId: int): seq<Show>
  {
    Filter(rows, (s: Show) => s.venueId == venueId)
  }

  /** `Artist.shows`: the shows whose artist_id is this artist's id, in scan order. */
  function ArtistShows(rows: seq<Show>, artistId: int): seq<Show>
  {
    Filter(rows, (s: Show) => s.artistId == artistId)
  }

  /** A scan of a consistent store resolves every foreign key. */
  lemma ScanResolves(st: Store, rows: seq<Show>)
    requires Consistent(st) && ShowScan(rows, st)
    ensures Resolves(st, rows)
  {
    forall s | s in rows
      ensures s.artistId in st.artists && s.venueId in st.venues
    {
      var i :| 0 <= i < |rows| && rows[i] == s;
      assert st.shows[rows[i].id] == s;
    }
  }

  /** The `shows` relationships are exactly the stored shows carrying the owner's id. */
  lemma RelationshipsExact(st: Store, rows: seq<Show>, ownerId: int, s: Show)
    requires ShowScan(rows, st)
    ensures s in VenueShows(rows, ownerId) <==> s.id in st.shows && st.shows[s.id] == s && s.venueId == ownerId
    ensures s in ArtistShows(rows, ownerId) <==> s.id in st.shows && st.shows[s.id] == s && s.artistId == ownerId
  {
    FilterMembership(rows, (s: Show) => s.venueId == ownerId, s);
    FilterMembership(rows, (s: Show) => s.artistId == ownerId, s);
    if s.id in st.shows && st.shows[s.id] == s {
      var i :| 0 <= i < |rows| && rows[i].id == s.id;
      assert rows[i] == s;
    }
  }
}
