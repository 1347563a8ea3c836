/** The record shapes of the game: a track as the game uses it, a loaded
    playlist, and the session record the game hook keeps. */
module GameTypes {
  import opened Wrappers

  /** The year of a release. The source computes it as a JavaScript number,
      which is NaN when the release date does not parse. */
  datatype Year = CalendarYear(value: int) | InvalidYear

  /** A track of the pool. Only `previewUrl` is optional. */
  datatype Track = Track(
    id: string,
    name: string,
    artist: string,
    album: string,
    releaseDate: string,
    year: Year,
    uri: string,
    previewUrl: Option<string>)

  /** A playlist as loaded: its catalog id, its name, the locator the user
      typed, and its tracks in catalog order. */
  datatype Playlist = Playlist(id: string, name: string, url: string, tracks: seq<Track>)

  datatype GameMode = Qr | Digital

  /** The session record. Consumption is recorded by track id, and
      "no track in play" is `currentTrack == None`. */
  datatype GameState = GameState(
    playlists: seq<Playlist>,
    allTracks: seq<Track>,
    currentTrack: Option<Track>,
    usedTracks: set<string>,
    isTrackInfoRevealed: bool,
    gameMode: GameMode)

  /** The ids of a sequence of tracks */
  function Ids(ts: seq<Track>): set<string> {
    set t | t in ts :: t.id
  }

  /** No two positions hold tracks with the same id */
  predicate DistinctIds(ts: seq<Track>) {
    forall i, j :: 0 <= i < j < |ts| ==> ts[i].id != ts[j].id
  }

  /** The tracks of several playlists, one playlist after the other */
  function TracksOf(ps: seq<Playlist>): seq<Track> {
    if |ps| == 0 then [] else TracksOf(ps[..|ps| - 1]) + ps[|ps| - 1].tracks
  }

  /** Ids distributes over concatenation. */
  lemma IdsConcat(a: seq<Track>, b: seq<Track>)
    ensures Ids(a + b) == Ids(a) + Ids(b)
  {
    assert forall t :: t in a + b <==> t in a || t in b;
  }

  /** The last track of a sequence with distinct ids brings a new id. */
  lemma SplitLast(ts: seq<Track>)
    requires |ts| > 0 && DistinctIds(ts)
    ensures DistinctIds(ts[..|ts| - 1])
    ensures ts[|ts| - 1].id !in Ids(ts[..|ts| - 1])
    ensures Ids(ts) == Ids(ts[..|ts| - 1]) + {ts[|ts| - 1].id}
  {
    var front := ts[..|ts| - 1];
    var x := ts[|ts| - 1];
    assert ts == front + [x];
    IdsConcat(front, [x]);
    assert Ids([x]) == {x.id};
  }

  /** A sequence with distinct ids has as many ids as tracks. */
  lemma {:induction false} DistinctIdsCard(ts: seq<Track>)
    requires DistinctIds(ts)
    ensures |Ids(ts)| == |ts|
    decreases |ts|
  {
    if |ts| == 0 {
      assert Ids(ts) == {};
    } else {
      SplitLast(ts);
      DistinctIdsCard(ts[..|ts| - 1]);
    }
  }
}
