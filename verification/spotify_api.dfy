/** The catalog client: turning catalog pages into tracks, following the
    pagination chain, assembling one playlist, and merging several playlists
    into one pool of tracks with distinct ids.

    The network is replaced by its answers: for every locator the caller
    passes the metadata reply and the sequence of page replies the catalog
    gives to the successive page requests. */
module SpotifyApi {
  import opened Wrappers
  import opened Text
  import opened GameTypes
  import opened Locator

  /** The status text of a response that was not OK */
  type StatusText = string

  datatype Artist = Artist(name: string)
  datatype Album = Album(name: string, releaseDate: string)

  /** A track object as the catalog sends it. The id may be null (local
      files have none). */
  datatype ApiTrack = ApiTrack(
    id: Option<string>,
    name: string,
    artists: seq<Artist>,
    album: Album,
    uri: string,
    previewUrl: Option<string>)

  /** One playlist entry; the track is null for removed tracks. */
  datatype PlaylistItem = PlaylistItem(track: Option<ApiTrack>)

  /** One page of a playlist's track listing, with the URL of the next page. */
  datatype TracksPage = TracksPage(items: seq<PlaylistItem>, next: Option<string>)

  /** The reply to one page request: a page, or the status text of a
      response that was not OK. */
  type PageReply = Result<TracksPage, StatusText>

  /** The loop condition of the page loop: JavaScript truthiness of the
      next-page URL, so null, a missing value and the empty string all end
      the loop. */
  predicate HasNext(next: Option<string>) {
    next.Some? && next.value != ""
  }

  /** The replies one run of the pagination loop receives: the loop goes on
      after every reply but the last, which is a failure or a page with no
      next URL. */
  predicate IsConversation(replies: seq<PageReply>) {
    && |replies| > 0
    && (forall i :: 0 <= i < |replies| - 1 ==> replies[i].Success? && HasNext(replies[i].value.next))
    && (replies[|replies| - 1].Success? ==> !HasNext(replies[|replies| - 1].value.next))
  }

  type Conversation = replies: seq<PageReply> | IsConversation(replies) witness [Failure("")]

  /** What the catalog answers for one playlist id: its metadata (the name,
      or the status text of a failed request) and its page replies. */
  datatype Reply = Reply(metadata: Result<string, StatusText>, pages: Conversation)

  /** One locator as the user typed it, with the catalog's answers for it. */
  datatype Attempt = Attempt(locator: string, reply: Reply)

  const InvalidLocatorMessage: string := "Invalid playlist URL or ID"

  function TracksFailureMessage(status: StatusText): string {
    "Failed to fetch playlist tracks: " + status
  }

  function PlaylistFailureMessage(status: StatusText): string {
    "Failed to fetch playlist: " + status
  }

  /** The entry filter of the page loop: the entry has a track with a non-empty id */
  predicate IsPlayable(item: PlaylistItem) {
    item.track.Some? && item.track.value.id.Some? && item.track.value.id.value != ""
  }

  /** The game's view of a playable entry. `yearOf` stands for the
      platform's date parsing followed by `getFullYear`. */
  function ToTrack(item: PlaylistItem, yearOf: string -> Year): (t: Track)
    requires IsPlayable(item)
    ensures t.id == item.track.value.id.value && t.id != ""
    ensures t.name == item.track.value.name && t.uri == item.track.value.uri
    ensures |item.track.value.artists| > 0 ==> item.track.value.artists[0].name <= t.artist
    ensures |item.track.value.artists| == 0 ==> t.artist == ""
    ensures t.album == item.track.value.album.name
    ensures t.releaseDate == item.track.value.album.releaseDate
    ensures t.year == yearOf(t.releaseDate)
    ensures t.artist == Join(ArtistNames(item.track.value.artists), ", ")
    ensures t.previewUrl == item.track.value.previewUrl
  {
    var a := item.track.value;
    Track(
      a.id.value,
      a.name,
      Join(ArtistNames(a.artists), ", "),
      a.album.name,
      a.album.releaseDate,
      yearOf(a.album.releaseDate),
      a.uri,
      a.previewUrl)
  }

  /** The artist names of a track, one per artist, in artist order */
  function ArtistNames(artists: seq<Artist>): (names: seq<string>)
    ensures |names| == |artists|
    ensures forall i :: 0 <= i < |artists| ==> names[i] == artists[i].name
  {
    seq(|artists|, i requires 0 <= i < |artists| => artists[i].name)
  }

  /** The tracks of one page's entries, in entry order, skipping entries
      without a track or without an id. */
  function PageTracks(items: seq<PlaylistItem>, yearOf: string -> Year): (ts: seq<Track>)
    ensures |ts| <= |items|
    ensures forall k :: 0 <= k < |ts| ==> ts[k].id != ""
    ensures forall i :: 0 <= i < |items| && IsPlayable(items[i]) ==> ToTrack(items[i], yearOf) in ts
    ensures forall t :: t in ts ==> exists i :: 0 <= i < |items| && IsPlayable(items[i]) && t == ToTrack(items[i], yearOf)
  {
    if |items| == 0 then []
    else
      var front := items[..|items| - 1];
      var last := items[|items| - 1];
      var ts := PageTracks(front, yearOf) + (if IsPlayable(last) then [ToTrack(last, yearOf)] else []);
      assert forall i :: 0 <= i < |front| ==> front[i] == items[i];
      ts
  }

  /** Filtering distributes over concatenation, so filtering page by page,
      in page order, gives the same tracks as filtering all entries at once. */
  lemma {:induction false} PageTracksConcat(a: seq<PlaylistItem>, b: seq<PlaylistItem>, yearOf: string -> Year)
    ensures PageTracks(a + b, yearOf) == PageTracks(a, yearOf) + PageTracks(b, yearOf)
    decreases |b|
  {
    if |b| > 0 {
      var b' := b[..|b| - 1];
      assert (a + b)[..|a + b| - 1] == a + b';
      PageTracksConcat(a, b', yearOf);
    } else {
      assert a + b == a;
    }
  }

  /** A page where every entry is playable loses nothing. */
  lemma {:induction false} PageTracksKeepsPlayable(items: seq<PlaylistItem>, yearOf: string -> Year)
    requires forall i :: 0 <= i < |items| ==> IsPlayable(items[i])
    ensures |PageTracks(items, yearOf)| == |items|
    decreases |items|
  {
    if |items| > 0 {
      PageTracksKeepsPlayable(items[..|items| - 1], yearOf);
    }
  }

  /** The entries of every page that arrived, in page order */
  function AllItems(replies: seq<PageReply>): seq<PlaylistItem> {
    if |replies| == 0 then []
    else (if replies[0].Success? then replies[0].value.items else []) + AllItems(replies[1..])
  }

  /** `fetchPlaylistTracks`: follows the pagination chain. It fails with the
      status of the first reply that is not OK; otherwise the tracks are
      those of all entries of all pages, page order first, entry order
      second. */
  function FetchPlaylistTracks(replies: Conversation, yearOf: string -> Year): (r: Result<seq<Track>, string>)
    ensures r.Failure? <==> replies[|replies| - 1].Failure?
    ensures r.Failure? ==> r.error == TracksFailureMessage(replies[|replies| - 1].error)
    ensures r.Success? ==> r.value == PageTracks(AllItems(replies), yearOf)
    ensures r.Success? ==> |r.value| <= |AllItems(replies)|
    decreases |replies|
  {
    match replies[0]
    case Failure(status) => Failure(TracksFailureMessage(status))
    case Success(page) =>
      var here := PageTracks(page.items, yearOf);
      if !HasNext(page.next) then
        assert |replies| == 1;
        assert AllItems(replies) == page.items + AllItems(replies[1..]);
        assert AllItems(replies) == page.items;
        Success(here)
      else
        var rest: Conversation := replies[1..];
        match FetchPlaylistTracks(rest, yearOf)
        case Failure(e) => Failure(e)
        case Success(more) =>
          PageTracksConcat(page.items, AllItems(rest), yearOf);
          Success(here + more)
  }

  /** `fetchPlaylist`: resolves the locator before any request, then asks for
      the metadata, then for the tracks. */
  function FetchPlaylist(a: Attempt, yearOf: string -> Year): (r: Result<Playlist, string>)
    ensures ExtractPlaylistId(a.locator).None? ==> r == Failure(InvalidLocatorMessage)
    ensures ExtractPlaylistId(a.locator).Some? && a.reply.metadata.Failure? ==>
      r == Failure(PlaylistFailureMessage(a.reply.metadata.error))
    ensures r.Success? <==>
      && ExtractPlaylistId(a.locator).Some?
      && a.reply.metadata.Success?
      && FetchPlaylistTracks(a.reply.pages, yearOf).Success?
    ensures r.Success? ==>
      && r.value.id == ExtractPlaylistId(a.locator).value
      && r.value.url == a.locator
      && r.value.name == a.reply.metadata.value
      && r.value.tracks == PageTracks(AllItems(a.reply.pages), yearOf)
  {
    match ExtractPlaylistId(a.locator)
    case None => Failure(InvalidLocatorMessage)
    case Some(id) =>
      match a.reply.metadata
      case Failure(status) => Failure(PlaylistFailureMessage(status))
      case Success(name) =>
        match FetchPlaylistTracks(a.reply.pages, yearOf)
        case Failure(e) => Failure(e)
        case Success(tracks) => Success(Playlist(id, name, a.locator, tracks))
  }

  /** One insertion into the merge's id-keyed map, which keeps insertion
      order: a track whose id is already present is dropped, otherwise it
      goes to the end. */
  function AddTrack(pool: seq<Track>, t: Track): seq<Track> {
    if t.id in Ids(pool) then pool else pool + [t]
  }

  /** One insertion keeps the existing entries and adds exactly `t.id`. */
  lemma AddTrackFacts(pool: seq<Track>, t: Track)
    ensures |pool| <= |AddTrack(pool, t)| <= |pool| + 1
    ensures AddTrack(pool, t)[..|pool|] == pool
    ensures Ids(AddTrack(pool, t)) == Ids(pool) + {t.id}
    ensures DistinctIds(pool) ==> DistinctIds(AddTrack(pool, t))
  {
    IdsConcat(pool, [t]);
    assert Ids([t]) == {t.id};
    if t.id !in Ids(pool) {
      assert forall i :: 0 <= i < |pool| ==> pool[i] in pool;
    }
  }

  /** Adds tracks one by one, in order. Entries already present are never
      touched, and distinct ids stay distinct. */
  function AddTracks(pool: seq<Track>, ts: seq<Track>): (r: seq<Track>)
    ensures |pool| <= |r| <= |pool| + |ts|
    ensures r[..|pool|] == pool
    ensures Ids(r) == Ids(pool) + Ids(ts)
    ensures DistinctIds(pool) ==> DistinctIds(r)
    decreases |ts|
  {
    if |ts| == 0 then pool
    else
      var before := AddTracks(pool, ts[..|ts| - 1]);
      AddTracksStep(pool, ts, before);
      AddTrack(before, ts[|ts| - 1])
  }

  /** The inductive step of `AddTracks` */
  lemma AddTracksStep(pool: seq<Track>, ts: seq<Track>, before: seq<Track>)
    requires |ts| > 0
    requires |pool| <= |before| <= |pool| + |ts| - 1
    requires before[..|pool|] == pool
    requires Ids(before) == Ids(pool) + Ids(ts[..|ts| - 1])
    requires DistinctIds(pool) ==> DistinctIds(before)
    ensures var r := AddTrack(before, ts[|ts| - 1]);
      && |pool| <= |r| <= |pool| + |ts|
      && r[..|pool|] == pool
      && Ids(r) == Ids(pool) + Ids(ts)
      && (DistinctIds(pool) ==> DistinctIds(r))
  {
    var front := ts[..|ts| - 1];
    var t := ts[|ts| - 1];
    assert ts == front + [t];
    IdsConcat(front, [t]);
    assert Ids([t]) == {t.id};
    AddTrackFacts(before, t);
    assert AddTrack(before, t)[..|pool|] == before[..|pool|];
  }

  /** Adding two runs of tracks one after the other is adding their
      concatenation. */
  lemma {:induction false} AddTracksConcat(pool: seq<Track>, a: seq<Track>, b: seq<Track>)
    ensures AddTracks(pool, a + b) == AddTracks(AddTracks(pool, a), b)
    decreases |b|
  {
    if |b| == 0 {
      assert a + b == a;
    } else {
      var b' := b[..|b| - 1];
      assert (a + b)[..|a + b| - 1] == a + b';
      assert (a + b)[|a + b| - 1] == b[|b| - 1];
      AddTracksConcat(pool, a, b');
    }
  }

  /** Pool and playlists after `fetchMultiplePlaylists` */
  datatype Merged = Merged(playlists: seq<Playlist>, allTracks: seq<Track>)

  /** The playlists of the attempts that succeed, in attempt order */
  function Successes(attempts: seq<Attempt>, yearOf: string -> Year): (ps: seq<Playlist>)
    ensures |ps| <= |attempts|
    decreases |attempts|
  {
    if |attempts| == 0 then []
    else
      var front := attempts[..|attempts| - 1];
      Successes(front, yearOf) + (match FetchPlaylist(attempts[|attempts| - 1], yearOf) case Success(p) => [p] case Failure(_) => [])
  }

  /** A single attempt contributes its playlist when it succeeds and
      nothing when it fails. */
  lemma SuccessesSingle(a: Attempt, yearOf: string -> Year)
    ensures FetchPlaylist(a, yearOf).Success? ==> Successes([a], yearOf) == [FetchPlaylist(a, yearOf).value]
    ensures FetchPlaylist(a, yearOf).Failure? ==> Successes([a], yearOf) == []
  {
    assert [a][..0] == [];
  }

  /** The attempts are taken in order: the successes of a concatenation are
      the successes of the first part followed by those of the second. */
  lemma {:induction false} SuccessesConcat(a: seq<Attempt>, b: seq<Attempt>, yearOf: string -> Year)
    ensures Successes(a + b, yearOf) == Successes(a, yearOf) + Successes(b, yearOf)
    decreases |b|
  {
    if |b| == 0 {
      assert a + b == a;
    } else {
      var front := b[..|b| - 1];
      assert (a + b)[..|a + b| - 1] == a + front;
      assert (a + b)[|a + b| - 1] == b[|b| - 1];
      SuccessesConcat(a, front, yearOf);
    }
  }

  /** A failing attempt contributes nothing; a successful one contributes
      exactly its playlist. */
  lemma {:induction false} SuccessesMembers(attempts: seq<Attempt>, yearOf: string -> Year)
    ensures forall p :: p in Successes(attempts, yearOf) ==>
      exists a :: a in attempts && FetchPlaylist(a, yearOf) == Success(p)
    ensures forall a :: a in attempts && FetchPlaylist(a, yearOf).Success? ==>
      FetchPlaylist(a, yearOf).value in Successes(attempts, yearOf)
    decreases |attempts|
  {
    if |attempts| > 0 {
      var front := attempts[..|attempts| - 1];
      var a := attempts[|attempts| - 1];
      assert attempts == front + [a];
      SuccessesMembers(front, yearOf);
    }
  }

  /** `fetchMultiplePlaylists`: every locator is tried in order; one that
      fails is skipped without stopping the others; the tracks of each
      successful playlist are added to the pool in order. */
  function FetchMultiplePlaylists(attempts: seq<Attempt>, yearOf: string -> Year): (r: Merged)
    ensures r.playlists == Successes(attempts, yearOf)
    ensures r.allTracks == AddTracks([], TracksOf(r.playlists))
    decreases |attempts|
  {
    if |attempts| == 0 then Merged([], [])
    else
      var before := FetchMultiplePlaylists(attempts[..|attempts| - 1], yearOf);
      match FetchPlaylist(attempts[|attempts| - 1], yearOf)
      case Failure(_) => before
      case Success(p) =>
        var ps := before.playlists + [p];
        assert ps[..|ps| - 1] == before.playlists;
        assert TracksOf(ps) == TracksOf(before.playlists) + p.tracks;
        AddTracksConcat([], TracksOf(before.playlists), p.tracks);
        Merged(ps, AddTracks(before.allTracks, p.tracks))
  }

  /** The merged pool has distinct ids, and its ids are those of the tracks
      of the playlists that loaded. */
  lemma MergedPoolIds(attempts: seq<Attempt>, yearOf: string -> Year)
    ensures DistinctIds(FetchMultiplePlaylists(attempts, yearOf).allTracks)
    ensures Ids(FetchMultiplePlaylists(attempts, yearOf).allTracks)
         == Ids(TracksOf(FetchMultiplePlaylists(attempts, yearOf).playlists))
  {
    var r := FetchMultiplePlaylists(attempts, yearOf);
    assert Ids([]) == {};
    assert DistinctIds([]);
  }
}

/** The first-seen-wins order of the merged pool, stated without reference
    to how the pool is built. */
module MergeOrder {
  import opened GameTypes
  import opened SpotifyApi

  /** The first position of `xs` holding a track with id `id` */
  function FirstIndex(xs: seq<Track>, id: string): (i: nat)
    requires id in Ids(xs)
    ensures i < |xs| && xs[i].id == id
    ensures forall j :: 0 <= j < i ==> xs[j].id != id
  {
    if xs[0].id == id then 0
    else
      assert xs == [xs[0]] + xs[1..];
      IdsConcat([xs[0]], xs[1..]);
      1 + FirstIndex(xs[1..], id)
  }

  /** Each track of `pool` is the first track of `xs` with its id */
  ghost predicate KeepsFirstOccurrence(pool: seq<Track>, xs: seq<Track>) {
    forall k :: 0 <= k < |pool| ==> pool[k].id in Ids(xs) && pool[k] == xs[FirstIndex(xs, pool[k].id)]
  }

  /** The tracks of `pool` are ordered by where their ids first occur in `xs` */
  ghost predicate InFirstSeenOrder(pool: seq<Track>, xs: seq<Track>) {
    forall a, b :: 0 <= a < b < |pool| && pool[a].id in Ids(xs) && pool[b].id in Ids(xs) ==>
      FirstIndex(xs, pool[a].id) < FirstIndex(xs, pool[b].id)
  }

  /** `pool` is the first-seen deduplication of `xs`: every id of `xs`
      appears exactly once, as the first track of `xs` carrying it, and the
      tracks are ordered by where their id was first seen. */
  ghost predicate IsFirstSeenDedup(pool: seq<Track>, xs: seq<Track>) {
    && DistinctIds(pool)
    && Ids(pool) == Ids(xs)
    && KeepsFirstOccurrence(pool, xs)
    && InFirstSeenOrder(pool, xs)
  }

  /** Appending to `xs` leaves the first position of an id already seen alone. */
  lemma FirstIndexSnoc(xs: seq<Track>, x: Track, id: string)
    requires id in Ids(xs)
    ensures id in Ids(xs + [x])
    ensures FirstIndex(xs + [x], id) == FirstIndex(xs, id)
  {
    IdsConcat(xs, [x]);
    var i := FirstIndex(xs, id);
    assert (xs + [x])[i] == xs[i];
  }

  /** The first position of a fresh id appended to `xs` is the end of `xs`. */
  lemma FirstIndexFresh(xs: seq<Track>, x: Track)
    requires x.id !in Ids(xs)
    ensures x.id in Ids(xs + [x])
    ensures FirstIndex(xs + [x], x.id) == |xs|
  {
    IdsConcat(xs, [x]);
    assert Ids([x]) == {x.id};
    var i := FirstIndex(xs + [x], x.id);
  }

  /** A track whose id was already seen leaves the deduplication alone. */
  lemma DedupSnocSeen(pool: seq<Track>, xs: seq<Track>, x: Track)
    requires IsFirstSeenDedup(pool, xs)
    requires x.id in Ids(xs)
    ensures IsFirstSeenDedup(pool, xs + [x])
  {
    IdsConcat(xs, [x]);
    assert Ids([x]) == {x.id};
    var xs' := xs + [x];
    forall k | 0 <= k < |pool|
      ensures pool[k].id in Ids(xs') && pool[k] == xs'[FirstIndex(xs', pool[k].id)]
    {
      FirstIndexSnoc(xs, x, pool[k].id);
      assert xs'[FirstIndex(xs, pool[k].id)] == xs[FirstIndex(xs, pool[k].id)];
    }
    forall a, b | 0 <= a < b < |pool| && pool[a].id in Ids(xs') && pool[b].id in Ids(xs')
      ensures FirstIndex(xs', pool[a].id) < FirstIndex(xs', pool[b].id)
    {
      FirstIndexSnoc(xs, x, pool[a].id);
      FirstIndexSnoc(xs, x, pool[b].id);
    }
  }

  /** A track with a new id goes to the end of the deduplication. */
  lemma DedupSnocFresh(pool: seq<Track>, xs: seq<Track>, x: Track)
    requires IsFirstSeenDedup(pool, xs)
    requires x.id !in Ids(xs)
    ensures IsFirstSeenDedup(pool + [x], xs + [x])
  {
    IdsConcat(xs, [x]);
    IdsConcat(pool, [x]);
    assert Ids([x]) == {x.id};
    forall k | 0 <= k < |pool|
      ensures pool[k].id != x.id
    {
      assert pool[k] in pool;
    }
    DistinctSnoc(pool, x);
    FreshKeepsFirstOccurrence(pool, xs, x);
    FreshInFirstSeenOrder(pool, xs, x);
  }

  lemma FreshKeepsFirstOccurrence(pool: seq<Track>, xs: seq<Track>, x: Track)
    requires KeepsFirstOccurrence(pool, xs)
    requires x.id !in Ids(xs)
    ensures KeepsFirstOccurrence(pool + [x], xs + [x])
  {
    FirstIndexFresh(xs, x);
    var xs' := xs + [x];
    var pool' := pool + [x];
    forall k | 0 <= k < |pool'|
      ensures pool'[k].id in Ids(xs') && pool'[k] == xs'[FirstIndex(xs', pool'[k].id)]
    {
      if k < |pool| {
        assert pool'[k] == pool[k];
        FirstIndexSnoc(xs, x, pool[k].id);
        assert xs'[FirstIndex(xs, pool[k].id)] == xs[FirstIndex(xs, pool[k].id)];
      }
    }
  }

  lemma FreshInFirstSeenOrder(pool: seq<Track>, xs: seq<Track>, x: Track)
    requires InFirstSeenOrder(pool, xs)
    requires forall k :: 0 <= k < |pool| ==> pool[k].id in Ids(xs)
    requires x.id !in Ids(xs)
    ensures InFirstSeenOrder(pool + [x], xs + [x])
  {
    FirstIndexFresh(xs, x);
    var xs' := xs + [x];
    var pool' := pool + [x];
    forall a, b | 0 <= a < b < |pool'| && pool'[a].id in Ids(xs') && pool'[b].id in Ids(xs')
      ensures FirstIndex(xs', pool'[a].id) < FirstIndex(xs', pool'[b].id)
    {
      assert pool'[a] == pool[a];
      FirstIndexSnoc(xs, x, pool[a].id);
      if b < |pool| {
        assert pool'[b] == pool[b];
        FirstIndexSnoc(xs, x, pool[b].id);
      }
    }
  }

  /** Appending a track with a new id keeps ids distinct. */
  lemma DistinctSnoc(pool: seq<Track>, x: Track)
    requires DistinctIds(pool)
    requires forall k :: 0 <= k < |pool| ==> pool[k].id != x.id
    ensures DistinctIds(pool + [x])
  {
    var pool' := pool + [x];
    forall a, b | 0 <= a < b < |pool'|
      ensures pool'[a].id != pool'[b].id
    {
      if b < |pool| {
        assert pool'[a] == pool[a] && pool'[b] == pool[b];
      }
    }
  }

  /** Adding the tracks of `xs` one by one to an empty pool yields their
      first-seen deduplication. */
  lemma {:induction false} AddTracksIsFirstSeenDedup(xs: seq<Track>)
    ensures IsFirstSeenDedup(AddTracks([], xs), xs)
    decreases |xs|
  {
    if |xs| == 0 {
      assert Ids([]) == {};
    } else {
      var front := xs[..|xs| - 1];
      var x := xs[|xs| - 1];
      assert xs == front + [x];
      var before := AddTracks([], front);
      AddTracksIsFirstSeenDedup(front);
      assert AddTracks([], xs) == AddTrack(before, x);
      if x.id in Ids(before) {
        DedupSnocSeen(before, front, x);
      } else {
        DedupSnocFresh(before, front, x);
      }
    }
  }

  /** The pool of `fetchMultiplePlaylists` is the first-seen deduplication
      of the successful playlists' tracks taken in input order: an id shared
      by several playlists keeps the track of the earliest one. */
  lemma MergeKeepsFirstSeen(attempts: seq<Attempt>, yearOf: string -> Year)
    ensures IsFirstSeenDedup(
      FetchMultiplePlaylists(attempts, yearOf).allTracks,
      TracksOf(Successes(attempts, yearOf)))
  {
    AddTracksIsFirstSeenDedup(TracksOf(Successes(attempts, yearOf)));
  }

  /** Two playlists [x, y] and [y', z], where y' has the id of y, merge to
      [x, y, z]: y' is dropped and the entry of the first playlist is kept. */
  lemma OverlappingPlaylists(x: Track, y: Track, y': Track, z: Track)
    requires x.id != y.id && y.id != z.id && x.id != z.id
    requires y'.id == y.id
    ensures AddTracks(AddTracks([], [x, y]), [y', z]) == [x, y, z]
  {
    assert [x, y][..1] == [x] && [x][..0] == [];
    assert AddTracks([], [x]) == [x];
    assert Ids([x]) == {x.id};
    assert AddTracks([], [x, y]) == [x, y];
    assert Ids([x, y]) == {x.id, y.id};
    assert [y', z][..1] == [y'] && [y'][..0] == [];
    assert AddTracks([x, y], [y']) == [x, y];
  }
}
