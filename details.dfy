/** The detail pages of app.py (`show_venue`, `show_artist`) and the list of
    all shows (`shows`). */
module Details {
  import opened Base
  import opened Models
  import opened Forms
  import opened Directory

  // ---------------------------------------------------------------------------
  // Splitting a list of shows around the current time.

  /** `Show.start_time > now`: an SQL comparison with NULL is never true. */
  predicate StartsAfter(s: Show, now: int)
  {
    s.startTime.Some? && s.startTime.value > now
  }

  /** `Show.start_time < now`. */
  predicate StartsBefore(s: Show, now: int)
  {
    s.startTime.Some? && s.startTime.value < now
  }

  /** A show that is on neither list: no start time, or one exactly at `now`. */
  predicate StartsNeither(s: Show, now: int)
  {
    s.startTime.None? || s.startTime.value == now
  }

  /** The upcoming shows of a list, in its order. */
  function UpcomingAt(shows: seq<Show>, now: int): seq<Show>
  {
    Filter(shows, (s: Show) => StartsAfter(s, now))
  }

  /** The past shows of a list, in its order. */
  function PastAt(shows: seq<Show>, now: int): seq<Show>
  {
    Filter(shows, (s: Show) => StartsBefore(s, now))
  }

  /** The shows of a list that are on neither list. */
  function UndatedAt(shows: seq<Show>, now: int): seq<Show>
  {
    Filter(shows, (s: Show) => StartsNeither(s, now))
  }

  /** Upcoming and past split a list of shows: a show is upcoming exactly when it
      starts after `now`, past exactly when it starts before, never both; the
      lists keep the input order, and with the shows on neither list they
      account for every show. */
  lemma TimePartition(shows: seq<Show>, now: int)
    ensures forall s :: s in UpcomingAt(shows, now) <==> s in shows && StartsAfter(s, now)
    ensures forall s :: s in PastAt(shows, now) <==> s in shows && StartsBefore(s, now)
    ensures forall s :: !(s in UpcomingAt(shows, now) && s in PastAt(shows, now))
    ensures IsSubsequence(UpcomingAt(shows, now), shows) && IsSubsequence(PastAt(shows, now), shows)
    ensures |UpcomingAt(shows, now)| + |PastAt(shows, now)| + |UndatedAt(shows, now)| == |shows|
  {
    forall s
      ensures s in UpcomingAt(shows, now) <==> s in shows && StartsAfter(s, now)
      ensures s in PastAt(shows, now) <==> s in shows && StartsBefore(s, now)
    {
      FilterMembership(shows, (s: Show) => StartsAfter(s, now), s);
      FilterMembership(shows, (s: Show) => StartsBefore(s, now), s);
    }
    FilterIsSubsequence(shows, (s: Show) => StartsAfter(s, now));
    FilterIsSubsequence(shows, (s: Show) => StartsBefore(s, now));
    FilterThreeWaySplit(shows, (s: Show) => StartsAfter(s, now), (s: Show) => StartsBefore(s, now),
      (s: Show) => StartsNeither(s, now));
  }

  /** The directory's `num_upcoming_shows` counts every show of the venue: the
      upcoming ones, the past ones and those on neither list. */
  lemma DirectoryCountsAllShows(v: Venue, showRows: seq<Show>, now: int)
    ensures var shows := VenueShows(showRows, v.id);
      Summarize(v, showRows).numUpcomingShows ==
        |UpcomingAt(shows, now)| + |PastAt(shows, now)| + |UndatedAt(shows, now)|
    ensures (exists s :: s in VenueShows(showRows, v.id) && StartsBefore(s, now)) ==>
      Summarize(v, showRows).numUpcomingShows > |UpcomingAt(VenueShows(showRows, v.id), now)|
  {
    var shows := VenueShows(showRows, v.id);
    TimePartition(shows, now);
    if exists s :: s in shows && StartsBefore(s, now) {
      var s :| s in shows && StartsBefore(s, now);
      assert s in PastAt(shows, now);
    }
  }

  // ---------------------------------------------------------------------------
  // show_venue()

  /** One entry of a venue page's show lists. */
  datatype VenueSlot = VenueSlot(artistId: int, artistName: Text, artistImageLink: Text, startTime: int)

  /** The `venue` dictionary of a venue page. */
  datatype VenuePage = VenuePage(
    venue: Venue,
    genres: seq<string>,
    upcomingShows: seq<VenueSlot>,
    pastShows: seq<VenueSlot>,
    upcomingShowsCount: nat,
    pastShowsCount: nat)

  /** Every show of the list is dated and its artist is in the store. */
  predicate ArtistsListable(st: Store, shows: seq<Show>)
  {
    forall s :: s in shows ==> s.startTime.Some? && s.artistId in st.artists
  }

  /** The slot of a show: its artist (looked up with `.one()`) and its start time. */
  function VenueSlotOf(st: Store, s: Show): VenueSlot
    requires s.startTime.Some? && s.artistId in st.artists
  {
    VenueSlot(s.artistId, st.artists[s.artistId].name, st.artists[s.artistId].imageLink, s.startTime.value)
  }

  function VenueSlots(st: Store, shows: seq<Show>): seq<VenueSlot>
    requires ArtistsListable(st, shows)
  {
    seq(|shows|, k requires 0 <= k < |shows| => VenueSlotOf(st, shows[k]))
  }

  /** The shows on a venue page are dated and name an artist of the store. */
  lemma VenueListsListable(st: Store, showRows: seq<Show>, venueId: int, now: int)
    requires Resolves(st, showRows)
    ensures ArtistsListable(st, UpcomingAt(VenueShows(showRows, venueId), now))
    ensures ArtistsListable(st, PastAt(VenueShows(showRows, venueId), now))
  {
    var shows := VenueShows(showRows, venueId);
    FilterSound(showRows, (s: Show) => s.venueId == venueId);
    TimePartition(shows, now);
  }

  /** The page `show_venue(venue_id)` renders at time `now`; None when no venue
      has the id (the page is then rendered with an empty dictionary). */
  function VenueDetail(st: Store, showRows: seq<Show>, venueId: int, now: int): Option<VenuePage>
    requires Resolves(st, showRows)
  {
    if venueId !in st.venues then None
    else
      var shows := VenueShows(showRows, venueId);
      var upcoming := UpcomingAt(shows, now);
      var past := PastAt(shows, now);
      VenueListsListable(st, showRows, venueId, now);
      Some(VenuePage(st.venues[venueId], Split(st.venues[venueId].genres),
        VenueSlots(st, upcoming), VenueSlots(st, past), |upcoming|, |past|))
  }

  /** `show_venue`: query the venue's upcoming and past shows, then build one
      slot per show, looking up its artist. */
  method ShowVenue(st: Store, showRows: seq<Show>, venueId: int, now: int) returns (page: Option<VenuePage>)
    requires Resolves(st, showRows)
    ensures page == VenueDetail(st, showRows, venueId, now)
  {
    if venueId !in st.venues {
      return None;
    }
    var col := st.venues[venueId];
    var upcomingShows := UpcomingAt(VenueShows(showRows, venueId), now);
    var pastShows := PastAt(VenueShows(showRows, venueId), now);
    VenueListsListable(st, showRows, venueId, now);
    var upShow: seq<VenueSlot> := [];
    for k := 0 to |upcomingShows|
      invariant |upShow| == k
      invariant forall t :: 0 <= t < k ==> upShow[t] == VenueSlotOf(st, upcomingShows[t])
    {
      var show := upcomingShows[k];
      var artist := st.artists[show.artistId];
      upShow := upShow + [VenueSlot(show.artistId, artist.name, artist.imageLink, show.startTime.value)];
    }
    var downShow: seq<VenueSlot> := [];
    for k := 0 to |pastShows|
      invariant |downShow| == k
      invariant forall t :: 0 <= t < k ==> downShow[t] == VenueSlotOf(st, pastShows[t])
    {
      var show := pastShows[k];
      var artist := st.artists[show.artistId];
      downShow := downShow + [VenueSlot(show.artistId, artist.name, artist.imageLink, show.startTime.value)];
    }
    assert upShow == VenueSlots(st, upcomingShows);
    assert downShow == VenueSlots(st, pastShows);
    page := Some(VenuePage(col, Split(col.genres), upShow, downShow, |upcomingShows|, |pastShows|));
  }

  /** Each slot of a list comes from one of its shows, and each show has its slot. */
  lemma VenueSlotsExact(st: Store, shows: seq<Show>)
    requires ArtistsListable(st, shows)
    ensures forall k :: 0 <= k < |shows| ==> shows[k] in shows && VenueSlots(st, shows)[k] == VenueSlotOf(st, shows[k])
    ensures forall s :: s in shows ==> exists k :: 0 <= k < |VenueSlots(st, shows)| && VenueSlots(st, shows)[k] == VenueSlotOf(st, s)
  {
    var slots := VenueSlots(st, shows);
    forall s | s in shows
      ensures exists k :: 0 <= k < |slots| && slots[k] == VenueSlotOf(st, s)
    {
      var k :| 0 <= k < |shows| && shows[k] == s;
      assert slots[k] == VenueSlotOf(st, s);
    }
  }

  /** A venue page exists exactly for the ids in the store; it carries the
      venue's own record with its genres read back, and counts equal to the list
      lengths that together never exceed the venue's number of shows. */
  lemma VenueDetailShape(st: Store, showRows: seq<Show>, venueId: int, now: int)
    requires Resolves(st, showRows)
    ensures VenueDetail(st, showRows, venueId, now).None? <==> venueId !in st.venues
    ensures VenueDetail(st, showRows, venueId, now).Some? ==>
      var p := VenueDetail(st, showRows, venueId, now).value;
      && p.venue == st.venues[venueId] && p.genres == Split(p.venue.genres)
      && p.upcomingShowsCount == |p.upcomingShows| && p.pastShowsCount == |p.pastShows|
      && p.upcomingShowsCount + p.pastShowsCount <= |VenueShows(showRows, venueId)|
  {
    TimePartition(VenueShows(showRows, venueId), now);
  }

  /** The upcoming (past) slots of a venue page are exactly the slots of the
      venue's shows that start after (before) `now`: each slot names a show's
      artist, with its name and image, and the show's start time. */
  lemma VenueListsExact(st: Store, showRows: seq<Show>, venueId: int, now: int)
    requires Resolves(st, showRows) && venueId in st.venues
    ensures var p := VenueDetail(st, showRows, venueId, now).value;
      && (forall k :: 0 <= k < |p.upcomingShows| ==>
            exists s :: s in VenueShows(showRows, venueId) && StartsAfter(s, now) && s.artistId in st.artists
              && p.upcomingShows[k] == VenueSlotOf(st, s))
      && (forall s :: s in VenueShows(showRows, venueId) && StartsAfter(s, now) ==>
            s.artistId in st.artists && exists k :: 0 <= k < |p.upcomingShows| && p.upcomingShows[k] == VenueSlotOf(st, s))
      && (forall k :: 0 <= k < |p.pastShows| ==>
            exists s :: s in VenueShows(showRows, venueId) && StartsBefore(s, now) && s.artistId in st.artists
              && p.pastShows[k] == VenueSlotOf(st, s))
      && (forall s :: s in VenueShows(showRows, venueId) && StartsBefore(s, now) ==>
            s.artistId in st.artists && exists k :: 0 <= k < |p.pastShows| && p.pastShows[k] == VenueSlotOf(st, s))
  {
    var shows := VenueShows(showRows, venueId);
    TimePartition(shows, now);
    VenueListsListable(st, showRows, venueId, now);
    VenueSlotsExact(st, UpcomingAt(shows, now));
    VenueSlotsExact(st, PastAt(shows, now));
  }

  /** A venue with one show before `now` and one after it reports one past and
      one upcoming show. */
  lemma VenueOnePastOneUpcoming(v: Venue, a: Artist)
    ensures var st := Store(map[v.id := v], map[a.id := a],
                            map[1 := Show(1, Some(100), a.id, v.id), 2 := Show(2, Some(300), a.id, v.id)]);
      var rows := [Show(1, Some(100), a.id, v.id), Show(2, Some(300), a.id, v.id)];
      Resolves(st, rows) &&
      var p := VenueDetail(st, rows, v.id, 200).value;
      p.pastShowsCount == 1 && p.upcomingShowsCount == 1
      && p.pastShows[0].startTime == 100 && p.upcomingShows[0].startTime == 300
  {
    var rows := [Show(1, Some(100), a.id, v.id), Show(2, Some(300), a.id, v.id)];
    FilterAll(rows, (s: Show) => s.venueId == v.id);
    assert rows == [rows[0]] + [rows[1]];
    FilterSnoc([rows[0]], rows[1], (s: Show) => StartsAfter(s, 200));
    FilterSnoc([rows[0]], rows[1], (s: Show) => StartsBefore(s, 200));
    FilterSnoc([], rows[0], (s: Show) => StartsAfter(s, 200));
    FilterSnoc([], rows[0], (s: Show) => StartsBefore(s, 200));
    assert [] + [rows[0]] == [rows[0]];
  }

  // ---------------------------------------------------------------------------
  // show_artist()

  /** One entry of an artist page's show lists. */
  datatype ArtistSlot = ArtistSlot(venueId: int, venueName: Text, venueImageLink: Text, startTime: int)

  /** The `artist` dictionary of an artist page. */
  datatype ArtistPage = ArtistPage(
    artist: Artist,
    genres: seq<string>,
    upcomingShows: seq<ArtistSlot>,
    pastShows: seq<ArtistSlot>,
    upcomingShowsCount: nat,
    pastShowsCount: nat)

  /** Every show of the list is dated and its venue is in the store. */
  predicate VenuesListable(st: Store, shows: seq<Show>)
  {
    forall s :: s in shows ==> s.startTime.Some? && s.venueId in st.venues
  }

  /** The slot of a show: its venue (looked up with `.one()`) and its start time. */
  function ArtistSlotOf(st: Store, s: Show): ArtistSlot
    requires s.startTime.Some? && s.venueId in st.venues
  {
    ArtistSlot(s.venueId, st.venues[s.venueId].name, st.venues[s.venueId].imageLink, s.startTime.value)
  }

  function ArtistSlots(st: Store, shows: seq<Show>): seq<ArtistSlot>
    requires VenuesListable(st, shows)
  {
    seq(|shows|, k requires 0 <= k < |shows| => ArtistSlotOf(st, shows[k]))
  }

  /** The shows on an artist page are dated and name a venue of the store. */
  lemma ArtistListsListable(st: Store, showRows: seq<Show>, artistId: int, now: int)
    requires Resolves(st, showRows)
    ensures VenuesListable(st, UpcomingAt(ArtistShows(showRows, artistId), now))
    ensures VenuesListable(st, PastAt(ArtistShows(showRows, artistId), now))
  {
    var shows := ArtistShows(showRows, artistId);
    FilterSound(showRows, (s: Show) => s.artistId == artistId);
    TimePartition(shows, now);
  }

  /** The page `show_artist(artist_id)` renders as written: its "past" query
      repeats the upcoming query's `start_time > now` filter. */
  function ArtistDetailAsWritten(st: Store, showRows: seq<Show>, artistId: int, now: int): Option<ArtistPage>
    requires Resolves(st, showRows)
  {
    if artistId !in st.artists then None
    else
      var shows := ArtistShows(showRows, artistId);
      var upcoming := UpcomingAt(shows, now);
      var past := UpcomingAt(shows, now);
      ArtistListsListable(st, showRows, artistId, now);
      Some(ArtistPage(st.artists[artistId], Split(st.artists[artistId].genres),
        ArtistSlots(st, upcoming), ArtistSlots(st, past), |upcoming|, |past|))
  }

  /** The page `show_artist` evidently means to render: past shows are those
      that started before `now`, as on the venue page. */
  function ArtistDetail(st: Store, showRows: seq<Show>, artistId: int, now: int): Option<ArtistPage>
    requires Resolves(st, showRows)
  {
    if artistId !in st.artists then None
    else
      var shows := ArtistShows(showRows, artistId);
      var upcoming := UpcomingAt(shows, now);
      var past := PastAt(shows, now);
      ArtistListsListable(st, showRows, artistId, now);
      Some(ArtistPage(st.artists[artistId], Split(st.artists[artistId].genres),
        ArtistSlots(st, upcoming), ArtistSlots(st, past), |upcoming|, |past|))
  }

  /** `show_artist` as written: two queries over the artist's shows (both with
      `start_time > now`), then one slot per show, looking up its venue. */
  method ShowArtist(st: Store, showRows: seq<Show>, artistId: int, now: int) returns (page: Option<ArtistPage>)
    requires Resolves(st, showRows)
    ensures page == ArtistDetailAsWritten(st, showRows, artistId, now)
  {
    if artistId !in st.artists {
      return None;
    }
    var entry := st.artists[artistId];
    var upcomingShows := UpcomingAt(ArtistShows(showRows, artistId), now);
    var pastShows := UpcomingAt(ArtistShows(showRows, artistId), now);
    ArtistListsListable(st, showRows, artistId, now);
    var upShow: seq<ArtistSlot> := [];
    for k := 0 to |upcomingShows|
      invariant |upShow| == k
      invariant forall t :: 0 <= t < k ==> upShow[t] == ArtistSlotOf(st, upcomingShows[t])
    {
      var show := upcomingShows[k];
      var venue := st.venues[show.venueId];
      upShow := upShow + [ArtistSlot(show.venueId, venue.name, venue.imageLink, show.startTime.value)];
    }
    var downShow: seq<ArtistSlot> := [];
    for k := 0 to |pastShows|
      invariant |downShow| == k
      invariant forall t :: 0 <= t < k ==> downShow[t] == ArtistSlotOf(st, pastShows[t])
    {
      var show := pastShows[k];
      var venue := st.venues[show.venueId];
      downShow := downShow + [ArtistSlot(show.venueId, venue.name, venue.imageLink, show.startTime.value)];
    }
    assert upShow == ArtistSlots(st, upcomingShows);
    assert downShow == ArtistSlots(st, pastShows);
    page := Some(ArtistPage(entry, Split(entry.genres), upShow, downShow, |upcomingShows|, |pastShows|));
  }

  /** As written, the "past" list of every artist page is its upcoming list, and
      every slot on it starts after `now`. */
  lemma ArtistPastRepeatsUpcoming(st: Store, showRows: seq<Show>, artistId: int, now: int)
    requires Resolves(st, showRows)
    ensures ArtistDetailAsWritten(st, showRows, artistId, now).Some? ==>
      var p := ArtistDetailAsWritten(st, showRows, artistId, now).value;
      && p.pastShows == p.upcomingShows && p.pastShowsCount == p.upcomingShowsCount
      && forall k :: 0 <= k < |p.pastShows| ==> p.pastShows[k].startTime > now
  {
    if artistId in st.artists {
      var upcoming := UpcomingAt(ArtistShows(showRows, artistId), now);
      var p := ArtistDetailAsWritten(st, showRows, artistId, now).value;
      TimePartition(ArtistShows(showRows, artistId), now);
      ArtistListsListable(st, showRows, artistId, now);
      forall k | 0 <= k < |p.pastShows|
        ensures p.pastShows[k].startTime > now
      {
        assert upcoming[k] in upcoming;
      }
    }
  }

  /** One artist with one show after `now`: as written the show is listed as
      past (and the past count is 1); the intended page lists it as upcoming only. */
  lemma ArtistFutureShowListedAsPast(v: Venue, a: Artist)
    ensures var st := Store(map[v.id := v], map[a.id := a], map[1 := Show(1, Some(300), a.id, v.id)]);
      var rows := [Show(1, Some(300), a.id, v.id)];
      Resolves(st, rows) &&
      var written := ArtistDetailAsWritten(st, rows, a.id, 200).value;
      var intended := ArtistDetail(st, rows, a.id, 200).value;
      && written.pastShowsCount == 1 && written.pastShows[0].startTime == 300
      && intended.pastShowsCount == 0 && intended.pastShows == []
      && intended.upcomingShowsCount == 1 && intended.upcomingShows[0].startTime == 300
  {
    var rows := [Show(1, Some(300), a.id, v.id)];
    FilterAll(rows, (s: Show) => s.artistId == a.id);
    FilterAll(rows, (s: Show) => StartsAfter(s, 200));
    FilterSnoc([], rows[0], (s: Show) => StartsBefore(s, 200));
    assert [] + [rows[0]] == rows;
  }

  /** Each slot of a list comes from one of its shows, and each show has its slot. */
  lemma ArtistSlotsExact(st: Store, shows: seq<Show>)
    requires VenuesListable(st, shows)
    ensures forall k :: 0 <= k < |shows| ==> shows[k] in shows && ArtistSlots(st, shows)[k] == ArtistSlotOf(st, shows[k])
    ensures forall s :: s in shows ==> exists k :: 0 <= k < |ArtistSlots(st, shows)| && ArtistSlots(st, shows)[k] == ArtistSlotOf(st, s)
  {
    var slots := ArtistSlots(st, shows);
    forall s | s in shows
      ensures exists k :: 0 <= k < |slots| && slots[k] == ArtistSlotOf(st, s)
    {
      var k :| 0 <= k < |shows| && shows[k] == s;
      assert slots[k] == ArtistSlotOf(st, s);
    }
  }

  /** An artist page (as intended) exists exactly for the ids in the store; it carries the
      artist's own record with its genres read back, and counts equal to the list
      lengths that together never exceed the artist's number of shows. */
  lemma ArtistDetailShape(st: Store, showRows: seq<Show>, artistId: int, now: int)
    requires Resolves(st, showRows)
    ensures ArtistDetail(st, showRows, artistId, now).None? <==> artistId !in st.artists
    ensures ArtistDetail(st, showRows, artistId, now).Some? ==>
      var p := ArtistDetail(st, showRows, artistId, now).value;
      && p.artist == st.artists[artistId] && p.genres == Split(p.artist.genres)
      && p.upcomingShowsCount == |p.upcomingShows| && p.pastShowsCount == |p.pastShows|
      && p.upcomingShowsCount + p.pastShowsCount <= |ArtistShows(showRows, artistId)|
  {
    TimePartition(ArtistShows(showRows, artistId), now);
  }

  /** The upcoming (past) slots of the intended artist page are exactly the slots of the
      artist's shows that start after (before) `now`: each slot names a show's
      venue, with its name and image, and the show's start time. */
  lemma ArtistListsExact(st: Store, showRows: seq<Show>, artistId: int, now: int)
    requires Resolves(st, showRows) && artistId in st.artists
    ensures var p := ArtistDetail(st, showRows, artistId, now).value;
      && (forall k :: 0 <= k < |p.upcomingShows| ==>
            exists s :: s in ArtistShows(showRows, artistId) && StartsAfter(s, now) && s.venueId in st.venues
              && p.upcomingShows[k] == ArtistSlotOf(st, s))
      && (forall s :: s in ArtistShows(showRows, artistId) && StartsAfter(s, now) ==>
            s.venueId in st.venues && exists k :: 0 <= k < |p.upcomingShows| && p.upcomingShows[k] == ArtistSlotOf(st, s))
      && (forall k :: 0 <= k < |p.pastShows| ==>
            exists s :: s in ArtistShows(showRows, artistId) && StartsBefore(s, now) && s.venueId in st.venues
              && p.pastShows[k] == ArtistSlotOf(st, s))
      && (forall s :: s in ArtistShows(showRows, artistId) && StartsBefore(s, now) ==>
            s.venueId in st.venues && exists k :: 0 <= k < |p.pastShows| && p.pastShows[k] == ArtistSlotOf(st, s))
  {
    var shows := ArtistShows(showRows, artistId);
    TimePartition(shows, now);
    ArtistListsListable(st, showRows, artistId, now);
    ArtistSlotsExact(st, UpcomingAt(shows, now));
    ArtistSlotsExact(st, PastAt(shows, now));
  }

  /** The page rendered as written differs from the intended one only in its past
      list: it exists for the same ids, carries the same record, genres and
      upcoming slots (so `ArtistDetailShape` and the upcoming half of
      `ArtistListsExact` hold for it too), and its past list is the upcoming one. */
  lemma ArtistDetailAsWrittenAgrees(st: Store, showRows: seq<Show>, artistId: int, now: int)
    requires Resolves(st, showRows)
    ensures ArtistDetailAsWritten(st, showRows, artistId, now).None? <==>
            ArtistDetail(st, showRows, artistId, now).None?
    ensures ArtistDetailAsWritten(st, showRows, artistId, now).Some? ==>
      var written := ArtistDetailAsWritten(st, showRows, artistId, now).value;
      var intended := ArtistDetail(st, showRows, artistId, now).value;
      && written.artist == intended.artist && written.genres == intended.genres
      && written.upcomingShows == intended.upcomingShows
      && written.upcomingShowsCount == intended.upcomingShowsCount
      && written.pastShows == intended.upcomingShows
      && written.pastShowsCount == intended.upcomingShowsCount
  {
  }

  // ---------------------------------------------------------------------------
  // shows(): every show, latest first.

  /** `a` sorts no later than `b` under ORDER BY start_time DESC; NULL sorts
      first, as PostgreSQL places NULLs in a descending order. */
  predicate StartsNoEarlier(a: Option<int>, b: Option<int>)
  {
    a.None? || (b.Some? && a.value >= b.value)
  }

  predicate SortedDesc(r: seq<Show>)
  {
    forall i, j :: 0 <= i < j < |r| ==> StartsNoEarlier(r[i].startTime, r[j].startTime)
  }

  /** Places `x` before the first show it does not start earlier than. */
  function Insert(x: Show, sorted: seq<Show>): seq<Show>
  {
    if sorted == [] then [x]
    else if StartsNoEarlier(x.startTime, sorted[0].startTime) then [x] + sorted
    else [sorted[0]] + Insert(x, sorted[1..])
  }

  /** The order `Show.query.order_by(desc(Show.start_time))` returns; shows with
      equal start times keep the scan order. */
  function SortByStartDesc(rows: seq<Show>): seq<Show>
  {
    if rows == [] then [] else Insert(rows[0], SortByStartDesc(rows[1..]))
  }

  /** Inserting adds `x` and keeps every show already there. */
  lemma {:induction false} InsertPermutes(x: Show, sorted: seq<Show>)
    ensures multiset(Insert(x, sorted)) == multiset(sorted) + multiset{x}
  {
    if sorted != [] && !StartsNoEarlier(x.startTime, sorted[0].startTime) {
      InsertPermutes(x, sorted[1..]);
      assert sorted == [sorted[0]] + sorted[1..];
    }
  }

  /** Inserting into a descending list keeps it descending. */
  lemma {:induction false} InsertKeepsOrder(x: Show, sorted: seq<Show>)
    requires SortedDesc(sorted)
    ensures SortedDesc(Insert(x, sorted))
  {
    if sorted == [] {
    } else if StartsNoEarlier(x.startTime, sorted[0].startTime) {
      var r := [x] + sorted;
      forall i, j | 0 <= i < j < |r|
        ensures StartsNoEarlier(r[i].startTime, r[j].startTime)
      {
        if i == 0 {
          assert r[j] == sorted[j - 1];
        } else {
          assert r[i] == sorted[i - 1] && r[j] == sorted[j - 1];
        }
      }
    } else {
      var rest := Insert(x, sorted[1..]);
      InsertKeepsOrder(x, sorted[1..]);
      InsertPermutes(x, sorted[1..]);
      forall j | 0 <= j < |rest|
        ensures StartsNoEarlier(sorted[0].startTime, rest[j].startTime)
      {
        assert rest[j] in multiset(rest);
        if rest[j] != x {
          assert rest[j] in sorted[1..];
        }
      }
      var r := [sorted[0]] + rest;
      forall i, j | 0 <= i < j < |r|
        ensures StartsNoEarlier(r[i].startTime, r[j].startTime)
      {
        if i == 0 {
          assert r[j] == rest[j - 1];
        } else {
          assert r[i] == rest[i - 1] && r[j] == rest[j - 1];
        }
      }
    }
  }

  /** The listing order is descending by start time and lists every show once. */
  lemma {:induction false} SortByStartDescCorrect(rows: seq<Show>)
    ensures SortedDesc(SortByStartDesc(rows))
    ensures multiset(SortByStartDesc(rows)) == multiset(rows)
  {
    if rows != [] {
      SortByStartDescCorrect(rows[1..]);
      InsertKeepsOrder(rows[0], SortByStartDesc(rows[1..]));
      InsertPermutes(rows[0], SortByStartDesc(rows[1..]));
      assert rows == [rows[0]] + rows[1..];
    }
  }

  /** One entry of the show list. */
  datatype ShowEntry = ShowEntry(
    venueId: int,
    venueName: Text,
    artistId: int,
    artistName: Text,
    artistImageLink: Text,
    startTime: int)

  /** The list is rendered, or formatting a NULL start time fails with 500. */
  datatype ShowsOutcome = Listed(shows: seq<ShowEntry>) | InternalError

  function EntryOf(st: Store, s: Show): ShowEntry
    requires s.startTime.Some? && s.artistId in st.artists && s.venueId in st.venues
  {
    ShowEntry(s.venueId, st.venues[s.venueId].name, s.artistId, st.artists[s.artistId].name,
      st.artists[s.artistId].imageLink, s.startTime.value)
  }

  /** Sorting neither adds nor drops shows. */
  lemma SortByStartDescMembers(rows: seq<Show>)
    ensures |SortByStartDesc(rows)| == |rows|
    ensures forall k :: 0 <= k < |SortByStartDesc(rows)| ==> SortByStartDesc(rows)[k] in rows
    ensures forall s :: s in rows ==> s in SortByStartDesc(rows)
  {
    var ordered := SortByStartDesc(rows);
    SortByStartDescCorrect(rows);
    assert |multiset(ordered)| == |multiset(rows)|;
    forall k | 0 <= k < |ordered|
      ensures ordered[k] in rows
    {
      assert ordered[k] in multiset(rows);
    }
    forall s | s in rows
      ensures s in ordered
    {
      assert s in multiset(ordered);
    }
  }

  /** Some show has no start time. */
  predicate SomeUndated(rows: seq<Show>)
  {
    exists s :: s in rows && s.startTime.None?
  }

  /** The `shows()` page. */
  function ShowListing(st: Store, showRows: seq<Show>): ShowsOutcome
    requires Resolves(st, showRows)
  {
    if SomeUndated(showRows) then InternalError
    else
      var ordered := SortByStartDesc(showRows);
      SortByStartDescMembers(showRows);
      Listed(seq(|ordered|, k requires 0 <= k < |ordered| => EntryOf(st, ordered[k])))
  }

  /** `shows()`: walk the shows latest first, looking up each one's artist and
      venue; the first show without a start time aborts the page. */
  method ListShows(st: Store, showRows: seq<Show>) returns (outcome: ShowsOutcome)
    requires Resolves(st, showRows)
    ensures outcome == ShowListing(st, showRows)
  {
    var shows := SortByStartDesc(showRows);
    SortByStartDescMembers(showRows);
    var data: seq<ShowEntry> := [];
    for k := 0 to |shows|
      invariant |data| == k
      invariant forall t :: 0 <= t < k ==> shows[t].startTime.Some? && data[t] == EntryOf(st, shows[t])
    {
      var show := shows[k];
      if show.startTime.None? {
        assert show in showRows;
        return InternalError;
      }
      var artist := st.artists[show.artistId];
      var venue := st.venues[show.venueId];
      data := data + [ShowEntry(show.venueId, venue.name, show.artistId, artist.name, artist.imageLink,
        show.startTime.value)];
    }
    outcome := Listed(data);
  }

  /** The show list fails exactly when a show has no start time; otherwise it
      lists every show once, latest first. */
  lemma ShowListingOrdered(st: Store, showRows: seq<Show>)
    requires Resolves(st, showRows)
    ensures ShowListing(st, showRows).InternalError? <==> exists s :: s in showRows && s.startTime.None?
    ensures ShowListing(st, showRows).Listed? ==>
      var entries := ShowListing(st, showRows).shows;
      && |entries| == |showRows|
      && (forall i, j :: 0 <= i < j < |entries| ==> entries[i].startTime >= entries[j].startTime)
  {
    if !SomeUndated(showRows) {
      var ordered := SortByStartDesc(showRows);
      SortByStartDescCorrect(showRows);
      SortByStartDescMembers(showRows);
      var entries := ShowListing(st, showRows).shows;
      forall i, j | 0 <= i < j < |entries|
        ensures entries[i].startTime >= entries[j].startTime
      {
        assert StartsNoEarlier(ordered[i].startTime, ordered[j].startTime);
      }
    }
  }

  /** Every show has an entry and every entry is a show's, carrying its venue's
      name and its artist's name and image. */
  lemma ShowListingComplete(st: Store, showRows: seq<Show>)
    requires Resolves(st, showRows) && !SomeUndated(showRows)
    ensures forall j :: 0 <= j < |showRows| ==>
      showRows[j].startTime.Some? &&
      exists k :: 0 <= k < |ShowListing(st, showRows).shows| && ShowListing(st, showRows).shows[k] == EntryOf(st, showRows[j])
    ensures forall k :: 0 <= k < |ShowListing(st, showRows).shows| ==>
      exists j :: 0 <= j < |showRows| && showRows[j].startTime.Some? &&
        ShowListing(st, showRows).shows[k] == EntryOf(st, showRows[j])
  {
    var ordered := SortByStartDesc(showRows);
    SortByStartDescMembers(showRows);
    var entries := ShowListing(st, showRows).shows;
    forall j | 0 <= j < |showRows|
      ensures showRows[j].startTime.Some?
      ensures exists k :: 0 <= k < |entries| && entries[k] == EntryOf(st, showRows[j])
    {
      assert showRows[j] in showRows;
      var k :| 0 <= k < |ordered| && ordered[k] == showRows[j];
      assert entries[k] == EntryOf(st, showRows[j]);
    }
    forall k | 0 <= k < |entries|
      ensures exists j :: 0 <= j < |showRows| && showRows[j].startTime.Some? && entries[k] == EntryOf(st, showRows[j])
    {
      assert ordered[k] in showRows;
      var j :| 0 <= j < |showRows| && showRows[j] == ordered[k];
      assert entries[k] == EntryOf(st, showRows[j]);
    }
  }
}
