/** The listing pages of app.py: the venue directory grouped by city and state
    (`venues`), the artist list (`artists`) and the two name searches
    (`search_venues`, `search_artists`). */
module Directory {
  import opened Base
  import opened Models
  import opened Forms

  /** One venue as the directory lists it. */
  datatype VenueSummary = VenueSummary(id: int, name: Text, numUpcomingShows: nat, city: Text, state: Text)

  /** One group of the directory: a city, a state and the venues listed under them. */
  datatype Area = Area(city: Text, state: Text, venues: seq<VenueSummary>)

  /** Python's rendering of a nullable column inside an f-string: NULL prints as "None". */
  function Display(t: Text): string
  {
    match t
    case None => "None"
    case Some(s) => s
  }

  /** The grouping key `f"{city}, {state}"`. */
  function AreaKey(city: Text, state: Text): string
  {
    Display(city) + ", " + Display(state)
  }

  function VenueKey(v: Venue): string
  {
    AreaKey(v.city, v.state)
  }

  /** The directory entry of a venue; `num_upcoming_shows` is `v.shows.count()`,
      the number of all the venue's shows. */
  function Summarize(v: Venue, showRows: seq<Show>): VenueSummary
  {
    VenueSummary(v.id, v.name, |VenueShows(showRows, v.id)|, v.city, v.state)
  }

  function Summaries(rows: seq<Venue>, showRows: seq<Show>): seq<VenueSummary>
  {
    seq(|rows|, i requires 0 <= i < |rows| => Summarize(rows[i], showRows))
  }

  /** The keys of `venues_dict` after the first loop: each key once, in order of first encounter. */
  function AreaKeys(rows: seq<Venue>): seq<string>
  {
    if rows == [] then []
    else
      var keys := AreaKeys(rows[..|rows| - 1]);
      var key := VenueKey(rows[|rows| - 1]);
      if key in keys then keys else keys + [key]
  }

  /** The venues filed under `key`, in input order. */
  function WithKey(rows: seq<Venue>, key: string): seq<Venue>
  {
    Filter(rows, (v: Venue) => VenueKey(v) == key)
  }

  /** `venues_dict[key]` after the first loop. */
  function Members(rows: seq<Venue>, showRows: seq<Show>, key: string): seq<VenueSummary>
  {
    Summaries(WithKey(rows, key), showRows)
  }

  /** One group of the `data` list: city and state are taken from its first member. */
  function AreaOf(rows: seq<Venue>, showRows: seq<Show>, key: string): (a: Area)
    requires key in AreaKeys(rows)
    ensures a.venues != []
  {
    AreaKeysOccur(rows, key);
    var i :| 0 <= i < |rows| && VenueKey(rows[i]) == key;
    FilterMembership(rows, (v: Venue) => VenueKey(v) == key, rows[i]);
    var m := Members(rows, showRows, key);
    Area(m[0].city, m[0].state, m)
  }

  /** The `areas` list that `venues()` renders. */
  function VenueDirectory(rows: seq<Venue>, showRows: seq<Show>): seq<Area>
  {
    var keys := AreaKeys(rows);
    seq(|keys|, j requires 0 <= j < |keys| => AreaOf(rows, showRows, keys[j]))
  }

  lemma AreaKeysSnoc(rows: seq<Venue>, v: Venue)
    ensures AreaKeys(rows + [v]) ==
      if VenueKey(v) in AreaKeys(rows) then AreaKeys(rows) else AreaKeys(rows) + [VenueKey(v)]
  {
    assert (rows + [v])[..|rows|] == rows;
  }

  lemma MembersSnoc(rows: seq<Venue>, v: Venue, showRows: seq<Show>, key: string)
    ensures Members(rows + [v], showRows, key) ==
      Members(rows, showRows, key) + (if VenueKey(v) == key then [Summarize(v, showRows)] else [])
  {
    FilterSnoc(rows, v, (v: Venue) => VenueKey(v) == key);
  }

  /** A key that no venue carries has no members. */
  lemma MembersOfUnlistedKey(rows: seq<Venue>, showRows: seq<Show>, key: string)
    requires key !in AreaKeys(rows)
    ensures Members(rows, showRows, key) == []
  {
    var w := WithKey(rows, key);
    if w != [] {
      FilterMembership(rows, (v: Venue) => VenueKey(v) == key, w[0]);
      var i :| 0 <= i < |rows| && rows[i] == w[0];
      AreaKeysOccur(rows, key);
      assert false;
    }
  }

  /** A key is listed exactly when some venue carries it. */
  lemma {:induction false} AreaKeysOccur(rows: seq<Venue>, key: string)
    ensures key in AreaKeys(rows) <==> exists i :: 0 <= i < |rows| && VenueKey(rows[i]) == key
  {
    if rows != [] {
      var init := rows[..|rows| - 1];
      AreaKeysOccur(init, key);
      if exists i :: 0 <= i < |init| && VenueKey(init[i]) == key {
        var i :| 0 <= i < |init| && VenueKey(init[i]) == key;
        assert VenueKey(rows[i]) == key;
      }
      if exists i :: 0 <= i < |rows| && VenueKey(rows[i]) == key {
        var i :| 0 <= i < |rows| && VenueKey(rows[i]) == key;
        if i < |init| {
          assert VenueKey(init[i]) == key;
        }
      }
    }
  }

  /** No key is listed twice, so no two groups share a key. */
  lemma {:induction false} AreaKeysDistinct(rows: seq<Venue>)
    ensures forall j, j' :: 0 <= j < j' < |AreaKeys(rows)| ==> AreaKeys(rows)[j] != AreaKeys(rows)[j']
  {
    if rows != [] {
      AreaKeysDistinct(rows[..|rows| - 1]);
    }
  }

  /** The groups formed by any prefix of the input are a prefix of the groups:
      later venues only ever open groups after the existing ones. */
  lemma {:induction false} AreaKeysPrefix(rows: seq<Venue>, i: nat)
    requires i <= |rows|
    ensures AreaKeys(rows[..i]) <= AreaKeys(rows)
    decreases |rows|
  {
    if i < |rows| {
      var init := rows[..|rows| - 1];
      assert init[..i] == rows[..i];
      AreaKeysPrefix(init, i);
    } else {
      assert rows[..i] == rows;
    }
  }

  /** First-encounter order: the venue at position `i`, when it is the first of its
      key, opens group number n, where n is the number of distinct keys before it. */
  lemma FirstEncounterOrder(rows: seq<Venue>, i: nat)
    requires i < |rows|
    requires VenueKey(rows[i]) !in AreaKeys(rows[..i])
    ensures |AreaKeys(rows[..i])| < |AreaKeys(rows)|
    ensures AreaKeys(rows)[|AreaKeys(rows[..i])|] == VenueKey(rows[i])
  {
    assert rows[..i + 1] == rows[..i] + [rows[i]];
    AreaKeysSnoc(rows[..i], rows[i]);
    AreaKeysPrefix(rows, i + 1);
  }

  /** The first loop of `venues()`: file each venue's entry under its key with
      `venues_dict.setdefault(key, []).append(...)`; `keys` is the dictionary's
      insertion order. */
  method GroupByArea(rows: seq<Venue>, showRows: seq<Show>)
    returns (keys: seq<string>, groups: map<string, seq<VenueSummary>>)
    ensures keys == AreaKeys(rows)
    ensures forall k :: k in groups <==> k in keys
    ensures forall k :: k in groups ==> groups[k] == Members(rows, showRows, k)
  {
    keys, groups := [], map[];
    for i := 0 to |rows|
      invariant keys == AreaKeys(rows[..i])
      invariant forall k :: k in groups <==> k in keys
      invariant forall k :: k in groups ==> groups[k] == Members(rows[..i], showRows, k)
    {
      var v := rows[i];
      var key := VenueKey(v);
      var entry := VenueSummary(v.id, v.name, |VenueShows(showRows, v.id)|, v.city, v.state);
      assert rows[..i + 1] == rows[..i] + [v];
      AreaKeysSnoc(rows[..i], v);
      forall k | k in groups || k == key
        ensures Members(rows[..i + 1], showRows, k) ==
          Members(rows[..i], showRows, k) + (if key == k then [entry] else [])
      {
        MembersSnoc(rows[..i], v, showRows, k);
      }
      if key in groups {
        groups := groups[key := groups[key] + [entry]];
      } else {
        MembersOfUnlistedKey(rows[..i], showRows, key);
        keys := keys + [key];
        groups := groups[key := [entry]];
      }
    }
    assert rows[..|rows|] == rows;
  }

  /** `venues()`: group the venues, then turn the dictionary's values, in
      insertion order, into the `data` list. */
  method Venues(rows: seq<Venue>, showRows: seq<Show>) returns (areas: seq<Area>)
    ensures areas == VenueDirectory(rows, showRows)
  {
    var keys, groups := GroupByArea(rows, showRows);
    areas := [];
    for j := 0 to |keys|
      invariant |areas| == j
      invariant forall t :: 0 <= t < j ==> areas[t] == AreaOf(rows, showRows, keys[t])
    {
      var value := groups[keys[j]];
      assert value == AreaOf(rows, showRows, keys[j]).venues;
      areas := areas + [Area(value[0].city, value[0].state, value)];
    }
  }

  /** Every group is non-empty, every member carries the group's key, and the
      group's city and state are those of its first member. */
  lemma AreaShape(rows: seq<Venue>, showRows: seq<Show>, j: nat)
    requires j < |VenueDirectory(rows, showRows)|
    ensures var a := VenueDirectory(rows, showRows)[j];
      && a.venues != []
      && a.city == a.venues[0].city && a.state == a.venues[0].state
      && AreaKey(a.city, a.state) == AreaKeys(rows)[j]
      && forall m :: m in a.venues ==> AreaKey(m.city, m.state) == AreaKeys(rows)[j]
  {
    var key := AreaKeys(rows)[j];
    var a := VenueDirectory(rows, showRows)[j];
    assert a == AreaOf(rows, showRows, key);
    var w := WithKey(rows, key);
    forall m | m in a.venues
      ensures AreaKey(m.city, m.state) == key
    {
      var t :| 0 <= t < |w| && a.venues[t] == m;
      FilterMembership(rows, (v: Venue) => VenueKey(v) == key, w[t]);
    }
    assert a.venues[0] in a.venues;
  }

  /** A venue is listed in a group exactly when its key is the group's key. */
  lemma InAreaIffSameKey(rows: seq<Venue>, showRows: seq<Show>, i: nat, j: nat)
    requires i < |rows| && j < |VenueDirectory(rows, showRows)|
    ensures var a := VenueDirectory(rows, showRows)[j];
      Summarize(rows[i], showRows) in a.venues <==> VenueKey(rows[i]) == AreaKey(a.city, a.state)
  {
    var key := AreaKeys(rows)[j];
    var a := VenueDirectory(rows, showRows)[j];
    AreaShape(rows, showRows, j);
    var s := Summarize(rows[i], showRows);
    if VenueKey(rows[i]) == key {
      var w := WithKey(rows, key);
      FilterMembership(rows, (v: Venue) => VenueKey(v) == key, rows[i]);
      var t :| 0 <= t < |w| && w[t] == rows[i];
      assert a.venues[t] == s;
    }
  }

  /** The directory partitions the venues: each venue is listed in exactly one group. */
  lemma EveryVenueInExactlyOneArea(rows: seq<Venue>, showRows: seq<Show>)
    ensures var d := VenueDirectory(rows, showRows);
      forall i :: 0 <= i < |rows| ==>
        exists j :: 0 <= j < |d| && Summarize(rows[i], showRows) in d[j].venues
    ensures var d := VenueDirectory(rows, showRows);
      forall i, j, j' ::
        (0 <= i < |rows| && 0 <= j < |d| && 0 <= j' < |d| &&
         Summarize(rows[i], showRows) in d[j].venues && Summarize(rows[i], showRows) in d[j'].venues) ==> j == j'
  {
    var d := VenueDirectory(rows, showRows);
    var keys := AreaKeys(rows);
    AreaKeysDistinct(rows);
    forall i | 0 <= i < |rows|
      ensures exists j :: 0 <= j < |d| && Summarize(rows[i], showRows) in d[j].venues
    {
      AreaKeysOccur(rows, VenueKey(rows[i]));
      var j :| 0 <= j < |keys| && keys[j] == VenueKey(rows[i]);
      InAreaIffSameKey(rows, showRows, i, j);
      AreaShape(rows, showRows, j);
    }
    forall i, j, j' | 0 <= i < |rows| && 0 <= j < |d| && 0 <= j' < |d| &&
      Summarize(rows[i], showRows) in d[j].venues && Summarize(rows[i], showRows) in d[j'].venues
      ensures j == j'
    {
      InAreaIffSameKey(rows, showRows, i, j);
      InAreaIffSameKey(rows, showRows, i, j');
      AreaShape(rows, showRows, j);
      AreaShape(rows, showRows, j');
    }
  }

  /** Two venues share a group exactly when their `"city, state"` strings are equal. */
  lemma SameAreaIffSameKey(rows: seq<Venue>, showRows: seq<Show>, i: nat, i': nat)
    requires i < |rows| && i' < |rows|
    ensures var d := VenueDirectory(rows, showRows);
      (exists j :: 0 <= j < |d| && Summarize(rows[i], showRows) in d[j].venues
                               && Summarize(rows[i'], showRows) in d[j].venues)
      <==> VenueKey(rows[i]) == VenueKey(rows[i'])
  {
    var d := VenueDirectory(rows, showRows);
    EveryVenueInExactlyOneArea(rows, showRows);
    var j :| 0 <= j < |d| && Summarize(rows[i], showRows) in d[j].venues;
    InAreaIffSameKey(rows, showRows, i, j);
    InAreaIffSameKey(rows, showRows, i', j);
    forall j' | 0 <= j' < |d| && Summarize(rows[i], showRows) in d[j'].venues
                             && Summarize(rows[i'], showRows) in d[j'].venues
      ensures VenueKey(rows[i]) == VenueKey(rows[i'])
    {
      InAreaIffSameKey(rows, showRows, i, j');
      InAreaIffSameKey(rows, showRows, i', j');
    }
  }

  /** Grouping compares the joined strings, not the (city, state) pairs: a comma
      inside a city can merge two different places into one group. */
  lemma KeyCollision()
    ensures AreaKey(Some("Portland, Maine"), Some("US")) == AreaKey(Some("Portland"), Some("Maine, US"))
    ensures AreaKey(None, Some("NY")) == AreaKey(Some("None"), Some("NY"))
  {
  }

  function AreaTotal(areas: seq<Area>): nat
  {
    if areas == [] then 0 else |areas[0].venues| + AreaTotal(areas[1..])
  }

  function KeyedTotal(keys: seq<string>, rows: seq<Venue>): nat
  {
    if keys == [] then 0 else |WithKey(rows, keys[0])| + KeyedTotal(keys[1..], rows)
  }

  lemma {:induction false} KeyedTotalCons(keys: seq<string>, v: Venue, rest: seq<Venue>)
    requires forall j, j' :: 0 <= j < j' < |keys| ==> keys[j] != keys[j']
    ensures KeyedTotal(keys, [v] + rest) == KeyedTotal(keys, rest) + (if VenueKey(v) in keys then 1 else 0)
  {
    if keys != [] {
      assert ([v] + rest)[1..] == rest;
      KeyedTotalCons(keys[1..], v, rest);
      if VenueKey(v) == keys[0] {
        assert VenueKey(v) !in keys[1..];
      }
    }
  }

  lemma {:induction false} KeyedTotalCounts(keys: seq<string>, rows: seq<Venue>)
    requires forall j, j' :: 0 <= j < j' < |keys| ==> keys[j] != keys[j']
    requires forall i :: 0 <= i < |rows| ==> VenueKey(rows[i]) in keys
    ensures KeyedTotal(keys, rows) == |rows|
  {
    if rows == [] {
      KeyedTotalEmpty(keys);
    } else {
      assert rows == [rows[0]] + rows[1..];
      KeyedTotalCons(keys, rows[0], rows[1..]);
      KeyedTotalCounts(keys, rows[1..]);
    }
  }

  lemma {:induction false} KeyedTotalEmpty(keys: seq<string>)
    ensures KeyedTotal(keys, []) == 0
  {
    if keys != [] {
      KeyedTotalEmpty(keys[1..]);
    }
  }

  lemma {:induction false} AreaTotalFrom(rows: seq<Venue>, showRows: seq<Show>, n: nat)
    requires n <= |AreaKeys(rows)|
    ensures AreaTotal(VenueDirectory(rows, showRows)[n..]) == KeyedTotal(AreaKeys(rows)[n..], rows)
    decreases |AreaKeys(rows)| - n
  {
    var d := VenueDirectory(rows, showRows);
    var keys := AreaKeys(rows);
    if n < |keys| {
      AreaTotalFrom(rows, showRows, n + 1);
      assert d[n..][1..] == d[n + 1..];
      assert keys[n..][1..] == keys[n + 1..];
      assert d[n..][0] == AreaOf(rows, showRows, keys[n]);
    }
  }

  /** The group sizes add up to the number of venues: nothing is lost or duplicated. */
  lemma DirectorySizes(rows: seq<Venue>, showRows: seq<Show>)
    ensures AreaTotal(VenueDirectory(rows, showRows)) == |rows|
  {
    var keys := AreaKeys(rows);
    AreaKeysDistinct(rows);
    forall i | 0 <= i < |rows|
      ensures VenueKey(rows[i]) in keys
    {
      AreaKeysOccur(rows, VenueKey(rows[i]));
    }
    KeyedTotalCounts(keys, rows);
    AreaTotalFrom(rows, showRows, 0);
    assert VenueDirectory(rows, showRows)[0..] == VenueDirectory(rows, showRows);
    assert keys[0..] == keys;
  }

  // ---------------------------------------------------------------------------
  // artists()

  /** One `{id, name}` entry of the artist list. */
  datatype ArtistLink = ArtistLink(id: int, name: Text)

  /** `artists()`: one entry per artist, in the order the table was read. */
  method Artists(rows: seq<Artist>) returns (data: seq<ArtistLink>)
    ensures |data| == |rows|
    ensures forall i :: 0 <= i < |rows| ==> data[i] == ArtistLink(rows[i].id, rows[i].name)
  {
    data := [];
    for i := 0 to |rows|
      invariant |data| == i
      invariant forall t :: 0 <= t < i ==> data[t] == ArtistLink(rows[t].id, rows[t].name)
    {
      data := data + [ArtistLink(rows[i].id, rows[i].name)];
    }
  }

  // ---------------------------------------------------------------------------
  // search_venues() and search_artists()

  /** One search hit: id, name and `shows.count()`. */
  datatype SearchEntry = SearchEntry(id: int, name: Text, numUpcomingShows: nat)

  /** The `response` dictionary: `count` and `data`. */
  datatype SearchResponse = SearchResponse(count: nat, data: seq<SearchEntry>)

  /** A search page is rendered, or the request is refused with 400 when the
      form has no `search_term` (`request.form[...]` raises). */
  datatype SearchOutcome = Results(response: SearchResponse) | BadRequest

  /** Case folding of one character (ASCII letters). */
  function LowerChar(c: char): char
  {
    if 'A' <= c <= 'Z' then (c as int + 32) as char else c
  }

  function Lower(s: string): string
  {
    seq(|s|, i requires 0 <= i < |s| => LowerChar(s[i]))
  }

  /** `t` occurs in `s` as a contiguous piece. */
  predicate ContainsSubstring(s: string, t: string)
    decreases |s|
  {
    t <= s || (s != [] && ContainsSubstring(s[1..], t))
  }

  /** `name ILIKE '%term%'`: a NULL name never matches. */
  predicate NameMatches(name: Text, term: string)
  {
    name.Some? && ContainsSubstring(Lower(name.value), Lower(term))
  }

  /** The search term `extract_data("search_term")` yields, if the form has one. */
  function SearchTerm(f: Form): Option<string>
  {
    match ExtractData(f, "search_term")
    case Extracted(Raw(t)) => Some(t)
    case _ => None
  }

  /** `Venue.query.filter(Venue.name.ilike(f"%{term}%")).all()`. */
  function VenueSearch(rows: seq<Venue>, term: string): seq<Venue>
  {
    Filter(rows, (v: Venue) => NameMatches(v.name, term))
  }

  /** `Artist.query.filter(Artist.name.ilike(f"%{term}%")).all()`. */
  function ArtistSearch(rows: seq<Artist>, term: string): seq<Artist>
  {
    Filter(rows, (a: Artist) => NameMatches(a.name, term))
  }

  /** `t` occurs in `s` starting at position `i`. */
  predicate OccursAt(s: string, t: string, i: nat)
  {
    i + |t| <= |s| && s[i..i + |t|] == t
  }

  /** The recursive substring test agrees with "there is a position where `t` starts". */
  lemma {:induction false} ContainsSubstringAt(s: string, t: string)
    ensures ContainsSubstring(s, t) <==> exists i: nat :: OccursAt(s, t, i)
  {
    if t <= s {
      assert OccursAt(s, t, 0);
    } else if s != [] {
      ContainsSubstringAt(s[1..], t);
      if exists i: nat :: OccursAt(s[1..], t, i) {
        var i: nat :| OccursAt(s[1..], t, i);
        assert s[i + 1..i + 1 + |t|] == s[1..][i..i + |t|];
        assert OccursAt(s, t, i + 1);
      }
      if exists i: nat :: OccursAt(s, t, i) {
        var i: nat :| OccursAt(s, t, i);
        if i != 0 {
          assert s[1..][i - 1..i - 1 + |t|] == s[i..i + |t|];
          assert OccursAt(s[1..], t, i - 1);
        }
      }
    }
  }

  /** The empty term is contained in every string. */
  lemma EmptyTermContained(s: string)
    ensures ContainsSubstring(s, "")
  {
  }

  /** A venue is found exactly when it has a name containing the term, ignoring case;
      the hits keep the table's order. */
  lemma VenueSearchExact(rows: seq<Venue>, term: string, v: Venue)
    ensures v in VenueSearch(rows, term) <==>
      v in rows && v.name.Some? &&
      exists i: nat :: OccursAt(Lower(v.name.value), Lower(term), i)
    ensures IsSubsequence(VenueSearch(rows, term), rows)
  {
    FilterMembership(rows, (v: Venue) => NameMatches(v.name, term), v);
    FilterIsSubsequence(rows, (v: Venue) => NameMatches(v.name, term));
    if v.name.Some? {
      ContainsSubstringAt(Lower(v.name.value), Lower(term));
    }
  }

  /** An artist is found exactly when it has a name containing the term, ignoring case. */
  lemma ArtistSearchExact(rows: seq<Artist>, term: string, a: Artist)
    ensures a in ArtistSearch(rows, term) <==>
      a in rows && a.name.Some? &&
      exists i: nat :: OccursAt(Lower(a.name.value), Lower(term), i)
    ensures IsSubsequence(ArtistSearch(rows, term), rows)
  {
    FilterMembership(rows, (a: Artist) => NameMatches(a.name, term), a);
    FilterIsSubsequence(rows, (a: Artist) => NameMatches(a.name, term));
    if a.name.Some? {
      ContainsSubstringAt(Lower(a.name.value), Lower(term));
    }
  }

  /** An empty term finds every venue and every artist whose name is not NULL
      (all of them when no name is NULL). */
  lemma EmptyTermFindsAllNamed(venues: seq<Venue>, artists: seq<Artist>)
    ensures forall v :: v in venues ==> (v in VenueSearch(venues, "") <==> v.name.Some?)
    ensures forall a :: a in artists ==> (a in ArtistSearch(artists, "") <==> a.name.Some?)
    ensures (forall v :: v in venues ==> v.name.Some?) ==> VenueSearch(venues, "") == venues
    ensures (forall a :: a in artists ==> a.name.Some?) ==> ArtistSearch(artists, "") == artists
  {
    forall v | v in venues
      ensures v in VenueSearch(venues, "") <==> v.name.Some?
    {
      FilterMembership(venues, (v: Venue) => NameMatches(v.name, ""), v);
      if v.name.Some? {
        EmptyTermContained(Lower(v.name.value));
      }
    }
    forall a | a in artists
      ensures a in ArtistSearch(artists, "") <==> a.name.Some?
    {
      FilterMembership(artists, (a: Artist) => NameMatches(a.name, ""), a);
      if a.name.Some? {
        EmptyTermContained(Lower(a.name.value));
      }
    }
    if forall v :: v in venues ==> v.name.Some? {
      forall v | v in venues
        ensures NameMatches(v.name, "")
      {
        EmptyTermContained(Lower(v.name.value));
      }
      FilterAll(venues, (v: Venue) => NameMatches(v.name, ""));
    }
    if forall a :: a in artists ==> a.name.Some? {
      forall a | a in artists
        ensures NameMatches(a.name, "")
      {
        EmptyTermContained(Lower(a.name.value));
      }
      FilterAll(artists, (a: Artist) => NameMatches(a.name, ""));
    }
  }

  /** `search_venues()`: the count is the number of hits, and each hit is listed
      with its id, name and total number of shows, in the order found. */
  method SearchVenues(f: Form, rows: seq<Venue>, showRows: seq<Show>) returns (outcome: SearchOutcome)
    ensures outcome.BadRequest? <==> SearchTerm(f).None?
    ensures outcome.Results? ==>
      var found := VenueSearch(rows, SearchTerm(f).value);
      && outcome.response.count == |outcome.response.data| == |found|
      && forall k :: 0 <= k < |found| ==>
           outcome.response.data[k] == SearchEntry(found[k].id, found[k].name, |VenueShows(showRows, found[k].id)|)
  {
    var term := SearchTerm(f);
    if term.None? {
      return BadRequest;
    }
    var found := VenueSearch(rows, term.value);
    var data: seq<SearchEntry> := [];
    for k := 0 to |found|
      invariant |data| == k
      invariant forall t :: 0 <= t < k ==>
        data[t] == SearchEntry(found[t].id, found[t].name, |VenueShows(showRows, found[t].id)|)
    {
      var result := found[k];
      data := data + [SearchEntry(result.id, result.name, |VenueShows(showRows, result.id)|)];
    }
    outcome := Results(SearchResponse(|found|, data));
  }

  /** `search_artists()`: the same shape over the Artist table. */
  method SearchArtists(f: Form, rows: seq<Artist>, showRows: seq<Show>) returns (outcome: SearchOutcome)
    ensures outcome.BadRequest? <==> SearchTerm(f).None?
    ensures outcome.Results? ==>
      var found := ArtistSearch(rows, SearchTerm(f).value);
      && outcome.response.count == |outcome.response.data| == |found|
      && forall k :: 0 <= k < |found| ==>
           outcome.response.data[k] == SearchEntry(found[k].id, found[k].name, |ArtistShows(showRows, found[k].id)|)
  {
    var term := SearchTerm(f);
    if term.None? {
      return BadRequest;
    }
    var found := ArtistSearch(rows, term.value);
    var data: seq<SearchEntry> := [];
    for k := 0 to |found|
      invariant |data| == k
      invariant forall t :: 0 <= t < k ==>
        data[t] == SearchEntry(found[t].id, found[t].name, |ArtistShows(showRows, found[t].id)|)
    {
      var result := found[k];
      data := data + [SearchEntry(result.id, result.name, |ArtistShows(showRows, result.id)|)];
    }
    outcome := Results(SearchResponse(|found|, data));
  }
}
