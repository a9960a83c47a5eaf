# Fyyur booking directory — a Dafny model

Fyyur is a small Flask/SQLAlchemy site that lists music venues, artists and
the shows that bring them together. This project models its request handlers
(`app.py`) and its three tables (`models.py`) in Dafny and proves what each
page shows and what each form submission does to the database.

The modules follow the program:

- `Base` (base.dfy) holds an optional value and order-keeping filtering, which is what an SQL `WHERE` returns over a given scan order.
- `Models` (models.dfy) holds the Venue, Artist and Show rows, the store of the three tables keyed by primary key, the declared column widths and foreign keys, and the `shows` relationships.
- `Forms` (forms.dfy) covers submitted forms:
  - `get`/`getlist` lookups;
  - `extract_data`, modelled as written and as evidently intended;
  - the presence-based "seeking" flags;
  - the `", "` genre codec.
- `Directory` (directory.dfy) holds the listing pages:
  - the venue directory grouped by `"city, state"`;
  - the artist list;
  - the two case-insensitive name searches.
- `Details` (details.dfy) holds:
  - the venue and artist detail pages, whose show lists are split around the current time;
  - the list of all shows, latest first.
- `Mutations` (mutations.dfy) covers the write paths:
  - a `Session` class with `add`, `commit`, `rollback` and `close`;
  - the integrity rules a commit enforces;
  - the six create/edit/delete handlers, with the store they leave behind, the HTTP answer and the flashed messages.

Query results come in a scan order that the model takes as a parameter (`rows`, `showRows`). The current time is a parameter `now`. Each handler's commit can fail for reasons outside the model; a `fault` parameter stands for those. New primary keys come from the database sequence and are a parameter `newId`.

## Model

| member | source | states |
|---|---|---|
| Models.ScanResolves | models.py:43-46 | in a consistent store, every show read from the Show table names an existing artist and venue (the NOT NULL foreign keys) |
| Models.Consistent | models.py:8-46 | what the store guarantees: each row sits under its own primary key, every VARCHAR value fits its declared width, and every show's artist and venue exist |
| Models.VenueShows | models.py:20 | `Venue.shows`: the shows whose `venue_id` is the venue's id, in scan order |
| Models.ArtistShows | models.py:37 | `Artist.shows`: the shows whose `artist_id` is the artist's id, in scan order |
| Models.RelationshipsExact | models.py:20 | `Venue.shows` / `Artist.shows` hold exactly the stored shows carrying the owner's id |
| Forms.GetList | app.py:65 | `request.form.getlist(key)`: every submitted value of the key, in submission order |
| Forms.Get | app.py:242 | `request.form.get(key)`: the first submitted value of the key, None when it is absent |
| Forms.GetIsFirstOfList | app.py:65 | `get` is None exactly when `getlist` is empty and is otherwise its first value; a key is found exactly when some pair carries it |
| Forms.SeekingFlag | app.py:251-253 | `True if request.form.get(key) != None else False` |
| Forms.FlagIsPresence | app.py:251-253 | the seeking flag is true exactly when the field was submitted, whatever its value ("n" included) |
| Forms.ExtractData | app.py:63-79 | `extract_data` as written: `getlist` for "genres"; true for "seeking_talent" without reading the form; `form[key] == "y"` for "seeking_venue"; otherwise `form[key]`; an absent key read by `form[key]` is a missing key (400) |
| Forms.ExtractDataIntended | app.py:63-79 | `extract_data` with both seeking flags read as `form[key] == "y"` |
| Forms.ExtractDataCases | app.py:63-79 | as written, `extract_data` gives the genres list, always true for "seeking_talent", `value == "y"` for "seeking_venue" (missing key when absent), and the raw value or a missing key otherwise |
| Forms.ExtractDataPrecedenceSlip | app.py:66-76 | as written, "seeking_talent" reads as true for the value "n" and when absent, where the intended grouping gives false and a missing key |
| Forms.ExtractDataIntendedFlags | app.py:66-76 | with the intended grouping, both seeking flags are true exactly for "y" and a missing field is a missing key |
| Forms.ExtractDataAgreesElsewhere | app.py:63-79 | the two readings agree on every field except "seeking_talent" (so the searches' `search_term` reads the same) |
| Forms.Join | app.py:243 | `", ".join(items)`: "" for no items, the items separated by `", "` otherwise |
| Forms.FindDelimiter | app.py:162 | gives the leftmost `", "`: None exactly when there is none, and no delimiter before the index returned |
| Forms.Split | app.py:162 | `split(", ")` never yields an empty list |
| Forms.GenresRoundTrip | app.py:243 | reading back a joined non-empty genre list whose genres do not contain `", "` gives the list back |
| Forms.EmptyGenresReadBack | app.py:243 | an empty genre list is stored as "" and reads back as `[""]` |
| Forms.DelimiterInGenreCorrupts | app.py:243 | a genre containing `", "` reads back as two genres |
| Forms.JazzBluesRoundTrip | app.py:530 | `["Jazz", "Blues"]` is stored as "Jazz, Blues" and reads back unchanged |
| Directory.GroupByArea | app.py:100-113 | after the first loop, the dictionary's keys are the distinct `"city, state"` keys in order of first encounter, and each key holds exactly its venues' entries in input order |
| Directory.Venues | app.py:97-122 | the rendered `areas` are the specification `VenueDirectory`: one group per key, in first-encounter order |
| Directory.AreaKeysOccur | app.py:102-104 | a key is listed exactly when some venue carries it |
| Directory.AreaKeysDistinct | app.py:106 | no key is listed twice |
| Directory.AreaKeysPrefix | app.py:102-106 | the groups formed by a prefix of the input are a prefix of the groups |
| Directory.FirstEncounterOrder | app.py:102-106 | the first venue of a key opens the group whose position is the number of distinct keys before it |
| Directory.AreaShape | app.py:115-120 | every group is non-empty, all its members carry its key, and its city and state are its first member's |
| Directory.InAreaIffSameKey | app.py:103-106 | a venue is in a group exactly when its key is the group's key |
| Directory.EveryVenueInExactlyOneArea | app.py:100-120 | the groups partition the venues: each venue's entry is in some group, and no two groups share a venue's key |
| Directory.SameAreaIffSameKey | app.py:103 | two venues share a group exactly when their key strings are equal |
| Directory.KeyCollision | app.py:103 | different (city, state) pairs can share a key ("Portland, Maine"/"US" and "Portland"/"Maine, US"; a NULL city and the city "None") |
| Directory.DirectorySizes | app.py:100-120 | the group sizes add up to the number of venues |
| Directory.Artists | app.py:298-303 | one `{id, name}` entry per artist, in table order |
| Directory.ContainsSubstringAt | app.py:128 | the containment test holds exactly when the term starts at some position of the name |
| Directory.EmptyTermContained | app.py:128 | the empty term is contained in every string |
| Directory.VenueSearchExact | app.py:128 | a venue is found exactly when its name is not NULL and contains the term, ignoring case; hits keep table order |
| Directory.ArtistSearchExact | app.py:309 | the same for artists |
| Directory.EmptyTermFindsAllNamed | app.py:126-128 | an empty term finds every venue or artist whose name is not NULL (all of them when none is NULL) |
| Directory.SearchVenues | app.py:126-145 | a missing `search_term` is a 400; otherwise `count` equals the number of hits and each entry is a hit's id, name and total show count, in order |
| Directory.SearchArtists | app.py:307-325 | the same over the Artist table |
| Details.TimePartition | app.py:156-157 | a show is upcoming exactly when it starts after `now` and past exactly when before; never both; order kept; with the shows at `now` or with NULL start time they account for every show |
| Details.DirectoryCountsAllShows | app.py:106-114 | `num_upcoming_shows` counts every show of the venue (upcoming + past + neither), so it exceeds the upcoming count once a past show exists |
| Details.ShowVenue | app.py:149-225 | the page built by the loops is the specification `VenueDetail` |
| Details.VenueDetailShape | app.py:149-225 | a page exists exactly for an existing id; it carries the venue's record and its genres read back; its counts equal its list lengths and never exceed the venue's shows |
| Details.VenueListsExact | app.py:156-213 | upcoming (past) slots are exactly the slots of the venue's shows starting after (before) `now`, each with its artist's name and image |
| Details.VenueOnePastOneUpcoming | app.py:156-223 | a venue with one show before and one after `now` reports one past and one upcoming show |
| Details.ShowArtist | app.py:329-418 | the page built by the loops, as written, is `ArtistDetailAsWritten` (both queries use `>`) |
| Details.ArtistPastRepeatsUpcoming | app.py:338-351 | as written, every artist page's past list is its upcoming list, with start times after `now` |
| Details.ArtistFutureShowListedAsPast | app.py:345-351 | one future show: as written it is listed as past (count 1); the intended page lists it as upcoming only |
| Details.ArtistDetailAsWrittenAgrees | app.py:329-418 | the page rendered as written exists for the same ids as the intended page and carries the same record, genres, upcoming slots and upcoming count; its past list and count are the upcoming ones, so the shape and upcoming-list facts proved for the intended page hold for it |
| Details.ArtistDetailShape | app.py:329-418 | the intended artist page exists exactly for an existing id; it carries the artist's record and its genres read back; its counts equal its list lengths |
| Details.ArtistListsExact | app.py:338-411 | intended page: upcoming (past) slots are exactly the slots of the artist's shows after (before) `now`, with the venue's name and image |
| Details.SortByStartDesc | app.py:569 | `order_by(desc(start_time))`: the shows by insertion sort, latest first and NULL first, ties in scan order |
| Details.SortByStartDescCorrect | app.py:569 | `order_by(desc(start_time))` gives a descending order (NULL first) that is a permutation of the shows |
| Details.SortByStartDescMembers | app.py:569 | sorting neither adds nor drops shows |
| Details.ListShows | app.py:567-588 | the loop yields the specification `ShowListing` and aborts at the first show without a start time |
| Details.ShowListingOrdered | app.py:569-586 | the show list is a 500 exactly when some show has no start time; otherwise it has one entry per show, latest first |
| Details.ShowListingComplete | app.py:570-586 | every show has an entry and every entry is a show's, with its venue's name and its artist's name and image (the equal length is `ShowListingOrdered`'s) |
| Mutations.Step | models.py:8-46 | one change as the database applies it: an insert needs a free key, an update or delete an existing one, every value must fit its column, a venue with shows cannot be deleted, and a show needs convertible values and both foreign keys set and existing; a refused change gives None |
| Mutations.Flush | app.py:257 | the queued changes applied in order, None as soon as one is refused |
| Mutations.Attempt | app.py:257 | `db.session.commit()`: the flushed store, or None when a change is refused or the database fails otherwise (`fault`) |
| Mutations.AttemptOne | app.py:257 | a transaction of one change succeeds as that change does |
| Mutations.StepPreservesConsistency | models.py:8-46 | a change the database accepts keeps keys, column widths and foreign keys valid |
| Mutations.FlushPreservesConsistency | models.py:8-46 | a committed transaction keeps the store consistent |
| Mutations.InsertShowRules | models.py:43-46 | a show is stored exactly when its id is free, its start time converts or is NULL, and both foreign keys are set and exist; the new store is the old one with that row added under its id and nothing else changed |
| Mutations.Session.constructor | app.py:257 | a session starts on a consistent store with nothing queued |
| Mutations.Session.Add | app.py:256 | `add` queues one change |
| Mutations.Session.Commit | app.py:257 | commit applies every queued change or none; on success the queue is empty and the store stays consistent |
| Mutations.Session.Rollback | app.py:266 | rollback drops the queue and keeps the committed store |
| Mutations.Session.Close | app.py:269 | close drops the queue and keeps the committed store |
| Mutations.VenueFromForm | app.py:241-254 | the Venue row a form describes: each text column from `form.get` (website from "website_link"), genres joined with `", "`, `seeking_talent` by presence |
| Mutations.ArtistFromForm | app.py:528-540 | the Artist row a form describes, built the same way with `seeking_venue` |
| Mutations.ShowFromForm | app.py:602-605 | the Show row a form describes: `start_time`, `artist_id` and `venue_id` from `form.get`, each NULL when absent and converted by the database otherwise |
| Mutations.VenueFromFormReadsBack | app.py:241-254 | a venue built from a form reads its genres back as submitted, seeks talent exactly when the field is present, and has a name exactly when one was submitted |
| Mutations.ArtistFromFormReadsBack | app.py:528-541 | the same for an artist and `seeking_venue` |
| Mutations.CreateVenueSubmission | app.py:239-270 | the handler's store and reply are the specification `CreateVenue`; the session ends with nothing queued |
| Mutations.CreateVenueExact | app.py:239-270 | always redirects to the venue list; succeeds exactly when the id is free, the values fit and nothing fails, adding only the form's venue; otherwise the store is unchanged and an error is flashed exactly when a name was given |
| Mutations.CreateVenueWithoutSeekingField | app.py:251-253 | "The Fillmore" without a seeking_talent field is stored with seeking_talent false and the reply redirects to the list |
| Mutations.DeleteVenueHandler | app.py:274-292 | the handler's store and reply are the specification `DeleteVenueRequest` |
| Mutations.DeleteVenueExact | app.py:274-292 | success is reported exactly when the venue exists, no show refers to it and nothing fails; then only that venue is gone, otherwise nothing changes |
| Mutations.DeleteMissingVenue | app.py:276-287 | deleting an id that names no venue answers `{"success": false}` with the error flash and changes nothing |
| Mutations.EditArtistSubmission | app.py:443-464 | the handler's store and reply are the specification `EditArtist` |
| Mutations.EditArtistExact | app.py:443-464 | always redirects to the artist page; when it takes effect every column is the form's and nothing else changes, otherwise nothing changes |
| Mutations.EditVenueSubmission | app.py:489-511 | the handler's store and reply are the specification `EditVenue` |
| Mutations.EditVenueExact | app.py:489-511 | always redirects to the venue page; when it takes effect every column is the form's and nothing else changes, otherwise nothing changes |
| Mutations.CreateArtistSubmission | app.py:525-559 | the handler's store and reply are the specification `CreateArtist` |
| Mutations.CreateArtistExact | app.py:525-559 | the home page is rendered exactly when the insert commits and a name was given, otherwise a 500; the store gains exactly the form's artist when the insert commits and is unchanged when it fails |
| Mutations.CreateArtistWithGenres | app.py:525-550 | "Jane Doe" with Jazz and Blues is stored with genres "Jazz, Blues", which reads back as the two genres, and the home page is rendered |
| Mutations.CreateShowSubmission | app.py:599-619 | the handler's store and reply are the specification `CreateShow` |
| Mutations.CreateShowExact | app.py:599-619 | the home page is rendered exactly when the show is stored (free id, both ids submitted, converting and existing, start time absent or converting); then the new store is the old one plus the form's show under the new id; otherwise a 500 and the store is unchanged |
| Mutations.CreateShowUnknownArtist | app.py:599-618 | a show naming an artist id not in the store ends in a 500 and stores nothing |
| Mutations.RequestsPreserveConsistency | app.py:239-619 | no create, edit or delete request leaves a consistent store inconsistent |

## Left out

- Flask plumbing is not modelled. This covers routing, template rendering, the WTForms form classes, the pages that only display a form (`create_venue_form`, `edit_artist`, `edit_venue`, `create_artist_form`, `create_shows`), `index` and the error handlers. Pages are their data; flashed messages are kept as (message, category) data.
- `format_datetime` and `strftime` are not modelled. Start times are integers, and formatting them is left out.
- The clock is a parameter `now`. `show_artist` reads `datetime.now()` twice, in local time, while `show_venue` uses UTC. The model uses one `now` for both artist queries.
- The `ILIKE` wildcards `%` and `_` are not modelled: a term that contains them is matched literally. Case folding covers ASCII letters only.
- Query result order is not modelled. Table scans are parameters; the artist page's join is taken in scan order; ties in `ORDER BY start_time DESC` keep scan order.
- Dangling references are excluded, not modelled. The detail pages and the show list require every show's artist and venue to exist, which the foreign keys guarantee. A `.one()` that finds no row is therefore never reached.
- The `len(...) == 0` branches inside the show loops of `show_venue` and `show_artist` are dead code and are not modelled.
- `genres` is a non-null string in the model, because every write path stores a join.
- The Boolean column defaults (`default=False`) are not modelled, because every write path sets the flag explicitly.
- `delete_venue` takes its id as text in the route. The model takes an integer id.
- The database's text-to-integer and text-to-timestamp conversion for new shows is the parameters `parseId` and `parseTime`.
- A primary key from the sequence is the parameter `newId`. A taken key makes the commit fail.
- Commit failures other than the modelled integrity rules are the parameter `fault`. This covers connection loss, deadlocks and the like.
- How the database refuses to delete a venue that still has shows is not distinguished. Whether it refuses the venue row or the orphaned shows, the model records one refused step.
- A strict PostgreSQL database is assumed throughout: NULLs sort first under `ORDER BY ... DESC`, and declared column widths and foreign keys are enforced at commit. PostgreSQL truncates an over-long VARCHAR value whose excess characters are all spaces instead of refusing it; `Models.Fits` refuses such a value.
- The globally shared session is not modelled; each request is given its own `Session` with nothing queued. Concurrency, `print` and logging are also left out.
- Details.ShowListingComplete: states that every show has an entry and every entry comes from a show (the equal length is stated by Details.ShowListingOrdered), rather than a multiset equality of entries. The permutation itself is proved on the sorted shows (Details.SortByStartDescCorrect).

## Findings

| source | as written | input that shows it | evidently intended | confidence | as-written member | corrected member |
|---|---|---|---|---|---|---|
| app.py:66-76 | `a or b and c` groups as `a or (b and c)`, so `extract_data("seeking_talent")` returns True without reading the form | a form with `seeking_talent = "n"`, or with no such field | `(field is seeking_talent or seeking_venue) and form[field] == "y"`: false for "n", a missing key when absent | high (not executed) | Forms.ExtractDataPrecedenceSlip | Forms.ExtractDataIntendedFlags |
| app.py:345-351 | the past-shows query of `show_artist` filters `start_time > now`, repeating the upcoming query | an artist with one show after `now`: it is listed as upcoming and also as past (past count 1) | past shows are those with `start_time < now`, as on the venue page | high (not executed) | Details.ArtistFutureShowListedAsPast | Details.ArtistListsExact |
