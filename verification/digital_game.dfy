/** The game session: a record of the loaded pool, the set of consumed
    track ids, the track in play and the reveal flag, with pure transitions
    for loading, drawing, revealing, consuming and resetting, and the
    statistics shown to the players.

    `Math.random()` is replaced by a number `rand` in [0, 1) passed to the
    draw; the catalog's answers are passed to the load. */
module DigitalGame {
  import opened Wrappers
  import opened GameTypes
  import opened SpotifyApi
  import MergeOrder

  /** What the hook holds: the game record and the last error message. */
  datatype Session = Session(game: GameState, error: Option<string>)

  const InitialGame: GameState := GameState([], [], None, {}, false, Digital)

  const InitialSession: Session := Session(InitialGame, None)

  const NoTracksMessage: string := "No tracks found in the provided playlists"

  const NoMoreTracksMessage: string := "No more tracks available in the game"

  /** A value of `Math.random()` */
  type Fraction = r: real | 0.0 <= r < 1.0

  /** The consistency the transitions keep: every consumed id belongs to a
      pool track, pool ids are distinct, and a track in play is a pool track
      that has not been consumed. */
  ghost predicate ValidGame(g: GameState) {
    && g.usedTracks <= Ids(g.allTracks)
    && DistinctIds(g.allTracks)
    && (g.currentTrack.Some? ==> g.currentTrack.value in g.allTracks && g.currentTrack.value.id !in g.usedTracks)
  }

  /** The pool tracks whose id has not been consumed, in pool order (the
      candidates of `getRandomTrack`) */
  function Available(ts: seq<Track>, used: set<string>): (a: seq<Track>)
    ensures |a| <= |ts|
    ensures forall t :: t in a <==> t in ts && t.id !in used
  {
    if |ts| == 0 then []
    else
      var front := ts[..|ts| - 1];
      var t := ts[|ts| - 1];
      assert ts == front + [t];
      Available(front, used) + (if t.id in used then [] else [t])
  }

  /** The position a random fraction selects among `n` candidates: the
      integer part of `rand * n`, which always lands in [0, n). */
  function RandomIndex(rand: Fraction, n: nat): (i: nat)
    requires n > 0
    ensures i < n
  {
    var x := rand * n as real;
    assert 0.0 <= x < n as real;
    x.Floor
  }

  /** `getRandomTrack`: null exactly when every pool track has been
      consumed; otherwise a pool track that has not been consumed. */
  function GetRandomTrack(g: GameState, rand: Fraction): (r: Option<Track>)
    ensures r.None? <==> forall t :: t in g.allTracks ==> t.id in g.usedTracks
    ensures r.Some? ==> r.value in g.allTracks && r.value.id !in g.usedTracks
  {
    var available := Available(g.allTracks, g.usedTracks);
    if |available| == 0 then None
    else
      var t := available[RandomIndex(rand, |available|)];
      assert t in available;
      Some(t)
  }

  /** The value of `Math.random()` that selects position `i` of `n` */
  function IndexFraction(i: nat, n: nat): (rand: Fraction)
    requires i < n
    ensures RandomIndex(rand, n) == i
  {
    var q := i as real / n as real;
    assert q * n as real == i as real;
    q
  }

  /** Every available track is drawn for some value of `Math.random()`. */
  lemma EveryAvailableTrackCanBeDrawn(g: GameState, t: Track)
    requires t in g.allTracks && t.id !in g.usedTracks
    ensures exists rand: Fraction :: GetRandomTrack(g, rand) == Some(t)
  {
    var available := Available(g.allTracks, g.usedTracks);
    assert t in available;
    var i :| 0 <= i < |available| && available[i] == t;
    var rand := IndexFraction(i, |available|);
    assert GetRandomTrack(g, rand) == Some(t);
  }

  /** The statistics panel */
  datatype GameStats = GameStats(totalTracks: nat, usedTracks: nat, remainingTracks: int, playlistCount: nat)

  /** `getGameStats` */
  function GetGameStats(g: GameState): (r: GameStats)
    ensures r.totalTracks == |g.allTracks| && r.playlistCount == |g.playlists|
    ensures r.usedTracks == |g.usedTracks|
    ensures r.usedTracks + r.remainingTracks == r.totalTracks
  {
    GameStats(|g.allTracks|, |g.usedTracks|, |g.allTracks| - |g.usedTracks|, |g.playlists|)
  }

  datatype LoadOutcome = Loaded(trackCount: nat) | LoadFailed(error: string)

  datatype LoadStep = LoadStep(session: Session, outcome: LoadOutcome)

  /** `loadPlaylists`: merges the playlists; an empty pool is an error that
      leaves the game untouched; otherwise the pool and the playlists are
      replaced and consumption, the track in play and the reveal flag are
      cleared. The error is cleared first. */
  function LoadPlaylists(s: Session, attempts: seq<Attempt>, yearOf: string -> Year): (r: LoadStep)
    ensures var merged := FetchMultiplePlaylists(attempts, yearOf);
      && (r.outcome.LoadFailed? <==> |merged.allTracks| == 0)
      && (r.outcome.LoadFailed? ==>
            && r.outcome.error == NoTracksMessage
            && r.session == Session(s.game, Some(NoTracksMessage)))
      && (r.outcome.Loaded? ==>
            && r.outcome.trackCount == |merged.allTracks| > 0
            && r.session.error.None?
            && r.session.game.playlists == merged.playlists
            && r.session.game.allTracks == merged.allTracks
            && r.session.game.usedTracks == {}
            && r.session.game.currentTrack.None?
            && !r.session.game.isTrackInfoRevealed
            && r.session.game.gameMode == s.game.gameMode
            && ValidGame(r.session.game))
  {
    var merged := FetchMultiplePlaylists(attempts, yearOf);
    if |merged.allTracks| == 0 then
      LoadStep(Session(s.game, Some(NoTracksMessage)), LoadFailed(NoTracksMessage))
    else
      var g := s.game.(
        playlists := merged.playlists,
        allTracks := merged.allTracks,
        usedTracks := {},
        currentTrack := None,
        isTrackInfoRevealed := false);
      LoadStep(Session(g, None), Loaded(|merged.allTracks|))
  }

  datatype PlayStep = PlayStep(session: Session, track: Option<Track>)

  /** `playRandomTrack`: on a draw the track goes into play with its
      information hidden and nothing else changes; when nothing is left the
      error is set and the game is untouched. */
  function PlayRandomTrack(s: Session, rand: Fraction): (r: PlayStep)
    ensures r.track.None? <==> forall t :: t in s.game.allTracks ==> t.id in s.game.usedTracks
    ensures r.track.None? ==> r.session == Session(s.game, Some(NoMoreTracksMessage))
    ensures r.track.Some? ==>
      && r.track.value in s.game.allTracks
      && r.track.value.id !in s.game.usedTracks
      && r.session.error == s.error
      && r.session.game == s.game.(currentTrack := r.track, isTrackInfoRevealed := false)
    ensures ValidGame(s.game) ==> ValidGame(r.session.game)
  {
    match GetRandomTrack(s.game, rand)
    case None => PlayStep(Session(s.game, Some(NoMoreTracksMessage)), None)
    case Some(t) =>
      PlayStep(Session(s.game.(currentTrack := Some(t), isTrackInfoRevealed := false), s.error), Some(t))
  }

  /** `revealTrackInfo`: sets the reveal flag, whether or not a track is in
      play, and changes nothing else. */
  function RevealTrackInfo(s: Session): (r: Session)
    ensures r.game.isTrackInfoRevealed
    ensures r.game.(isTrackInfoRevealed := s.game.isTrackInfoRevealed) == s.game
    ensures r.error == s.error
    ensures ValidGame(s.game) ==> ValidGame(r.game)
  {
    s.(game := s.game.(isTrackInfoRevealed := true))
  }

  /** `markTrackAsUsed`: consumes the track in play and hides the reveal;
      without a track in play nothing happens. */
  function MarkTrackAsUsed(s: Session): (r: Session)
    ensures s.game.currentTrack.None? ==> r == s
    ensures s.game.currentTrack.Some? ==>
      && r.game.usedTracks == s.game.usedTracks + {s.game.currentTrack.value.id}
      && r.game.currentTrack.None?
      && !r.game.isTrackInfoRevealed
      && r.game.playlists == s.game.playlists
      && r.game.allTracks == s.game.allTracks
      && r.game.gameMode == s.game.gameMode
      && r.error == s.error
    ensures ValidGame(s.game) ==> ValidGame(r.game)
  {
    match s.game.currentTrack
    case None => s
    case Some(t) =>
      assert t in s.game.allTracks ==> t.id in Ids(s.game.allTracks);
      s.(game := s.game.(
        usedTracks := s.game.usedTracks + {t.id},
        currentTrack := None,
        isTrackInfoRevealed := false))
  }

  /** `resetGame`: back to "freshly loaded": consumption, track in play,
      reveal flag and error are cleared, the pool and the playlists stay. */
  function ResetGame(s: Session): (r: Session)
    ensures r.game.usedTracks == {} && r.game.currentTrack.None? && !r.game.isTrackInfoRevealed
    ensures r.error.None?
    ensures r.game.playlists == s.game.playlists && r.game.allTracks == s.game.allTracks
    ensures r.game.gameMode == s.game.gameMode
    ensures DistinctIds(s.game.allTracks) ==> ValidGame(r.game)
  {
    Session(s.game.(currentTrack := None, usedTracks := {}, isTrackInfoRevealed := false), None)
  }

  /** A fresh session shows no tracks, nothing consumed, nothing left and no
      playlists, and is consistent. */
  lemma InitialSessionIsEmpty()
    ensures GetGameStats(InitialSession.game) == GameStats(0, 0, 0, 0)
    ensures InitialSession.game.currentTrack.None? && !InitialSession.game.isTrackInfoRevealed
    ensures ValidGame(InitialSession.game)
  {
  }

  /** Removing an id that no track carries does not change availability. */
  lemma {:induction false} AvailableIgnoresForeignId(ts: seq<Track>, used: set<string>, id: string)
    requires id !in Ids(ts)
    ensures Available(ts, used - {id}) == Available(ts, used)
    decreases |ts|
  {
    if |ts| > 0 {
      var front := ts[..|ts| - 1];
      assert ts == front + [ts[|ts| - 1]];
      IdsConcat(front, [ts[|ts| - 1]]);
      AvailableIgnoresForeignId(front, used, id);
    }
  }

  /** With distinct ids and consumed ids drawn from the pool, every consumed
      id removes exactly one track from availability. */
  lemma {:induction false} AvailableCount(ts: seq<Track>, used: set<string>)
    requires DistinctIds(ts)
    requires used <= Ids(ts)
    ensures |Available(ts, used)| + |used| == |ts|
    decreases |ts|
  {
    if |ts| > 0 {
      var front := ts[..|ts| - 1];
      var x := ts[|ts| - 1];
      SplitLast(ts);
      var rest := used - {x.id};
      SubsetOfFront(used, Ids(front), x.id);
      AvailableIgnoresForeignId(front, used, x.id);
      AvailableCount(front, rest);
      AvailableSnoc(ts, used);
      CardRemove(used, x.id);
    }
  }

  /** Consumed ids other than the last track's belong to the front. */
  lemma SubsetOfFront(used: set<string>, front: set<string>, id: string)
    requires used <= front + {id}
    ensures used - {id} <= front
  {
  }

  /** Removing an id takes one from the count exactly when it was there. */
  lemma CardRemove(used: set<string>, id: string)
    ensures |used - {id}| == |used| - (if id in used then 1 else 0)
  {
    if id in used {
      assert used == (used - {id}) + {id};
    } else {
      assert used - {id} == used;
    }
  }

  /** Availability of a sequence ending in `x`: that of the front, then `x`
      unless its id is consumed. */
  lemma AvailableSnoc(ts: seq<Track>, used: set<string>)
    requires |ts| > 0
    ensures var x := ts[|ts| - 1];
      |Available(ts, used)| == |Available(ts[..|ts| - 1], used)| + (if x.id in used then 0 else 1)
  {
  }

  /** In a consistent game the "remaining" statistic is the number of tracks
      a draw can still return, so it is never negative. */
  lemma RemainingIsAvailable(g: GameState)
    requires ValidGame(g)
    ensures GetGameStats(g).remainingTracks == |Available(g.allTracks, g.usedTracks)|
    ensures GetGameStats(g).remainingTracks >= 0
  {
    AvailableCount(g.allTracks, g.usedTracks);
  }

  /** In a consistent game a draw finds nothing exactly when the statistics
      say no track remains. */
  lemma DrawFailsIffNoneRemaining(g: GameState, rand: Fraction)
    requires ValidGame(g)
    ensures GetRandomTrack(g, rand).None? <==> GetGameStats(g).remainingTracks == 0
  {
    RemainingIsAvailable(g);
    var available := Available(g.allTracks, g.usedTracks);
    if |available| > 0 {
      assert available[0] in available;
    }
  }

  /** Consuming the track in play adds one to "used" and takes one from
      "remaining"; the pool and the playlist count stay. */
  lemma MarkTrackAsUsedCounts(s: Session)
    requires ValidGame(s.game)
    requires s.game.currentTrack.Some?
    ensures GetGameStats(MarkTrackAsUsed(s).game).usedTracks == GetGameStats(s.game).usedTracks + 1
    ensures GetGameStats(MarkTrackAsUsed(s).game).remainingTracks == GetGameStats(s.game).remainingTracks - 1
    ensures GetGameStats(MarkTrackAsUsed(s).game).totalTracks == GetGameStats(s.game).totalTracks
    ensures GetGameStats(MarkTrackAsUsed(s).game).playlistCount == GetGameStats(s.game).playlistCount
  {
    var id := s.game.currentTrack.value.id;
    assert |s.game.usedTracks + {id}| == |s.game.usedTracks| + 1;
  }

  /** Resetting keeps the total and the playlist count, and makes every
      track available again. */
  lemma ResetGameStats(s: Session)
    ensures GetGameStats(ResetGame(s).game).usedTracks == 0
    ensures GetGameStats(ResetGame(s).game).totalTracks == GetGameStats(s.game).totalTracks
    ensures GetGameStats(ResetGame(s).game).playlistCount == GetGameStats(s.game).playlistCount
    ensures GetGameStats(ResetGame(s).game).remainingTracks == GetGameStats(s.game).totalTracks
  {
  }

  /** Right after a successful load the panel shows the pool size as the
      total and as "remaining", nothing used, and one playlist per
      successful locator. */
  lemma LoadedStats(s: Session, attempts: seq<Attempt>, yearOf: string -> Year)
    requires LoadPlaylists(s, attempts, yearOf).outcome.Loaded?
    ensures var stats := GetGameStats(LoadPlaylists(s, attempts, yearOf).session.game);
      var n := LoadPlaylists(s, attempts, yearOf).outcome.trackCount;
      stats == GameStats(n, 0, n, |Successes(attempts, yearOf)|)
  {
  }

  /** Two loaded playlists [x, y] and [y', z], where y' shares the id of y,
      give a pool of three tracks: the panel reads 3 total, 0 used,
      3 remaining, 2 playlists. */
  lemma OverlappingLoadStats(s: Session, attempts: seq<Attempt>, yearOf: string -> Year,
                             x: Track, y: Track, y': Track, z: Track)
    requires x.id != y.id && y.id != z.id && x.id != z.id
    requires y'.id == y.id
    requires |Successes(attempts, yearOf)| == 2
    requires Successes(attempts, yearOf)[0].tracks == [x, y]
    requires Successes(attempts, yearOf)[1].tracks == [y', z]
    ensures LoadPlaylists(s, attempts, yearOf).outcome == Loaded(3)
    ensures GetGameStats(LoadPlaylists(s, attempts, yearOf).session.game) == GameStats(3, 0, 3, 2)
  {
    var ps := Successes(attempts, yearOf);
    TwoPlaylistTracks(ps);
    OverlappingPool(x, y, y', z);
    var merged := FetchMultiplePlaylists(attempts, yearOf);
    assert merged.allTracks == [x, y, z];
    LoadedStats(s, attempts, yearOf);
  }

  /** The tracks of two playlists are the first's followed by the second's. */
  lemma TwoPlaylistTracks(ps: seq<Playlist>)
    requires |ps| == 2
    ensures TracksOf(ps) == ps[0].tracks + ps[1].tracks
  {
    var first := ps[..1];
    assert first[..0] == [];
    assert TracksOf(first[..0]) == [];
    assert TracksOf(first) == ps[0].tracks;
    assert ps[..|ps| - 1] == first;
  }

  /** Merging [x, y, y', z] into an empty pool gives [x, y, z]. */
  lemma OverlappingPool(x: Track, y: Track, y': Track, z: Track)
    requires x.id != y.id && y.id != z.id && x.id != z.id
    requires y'.id == y.id
    ensures AddTracks([], [x, y] + [y', z]) == [x, y, z]
  {
    AddTracksConcat([], [x, y], [y', z]);
    MergeOrder.OverlappingPlaylists(x, y, y', z);
  }

  /** The player-facing operations between two loads or resets */
  datatype Command = Play(rand: Fraction) | Reveal | Next

  function Apply(s: Session, c: Command): Session {
    match c
    case Play(rand) => PlayRandomTrack(s, rand).session
    case Reveal => RevealTrackInfo(s)
    case Next => MarkTrackAsUsed(s)
  }

  function Run(s: Session, cs: seq<Command>): Session
    decreases |cs|
  {
    if |cs| == 0 then s else Apply(Run(s, cs[..|cs| - 1]), cs[|cs| - 1])
  }

  /** Between two loads or resets the pool and the playlists never change,
      consumption only grows, consistency is kept, and a consumed id is
      never in play again. */
  lemma {:induction false} ConsumedNeverReturns(s: Session, cs: seq<Command>, id: string)
    requires ValidGame(s.game)
    requires id in s.game.usedTracks
    ensures var r := Run(s, cs).game;
      && ValidGame(r)
      && r.allTracks == s.game.allTracks
      && r.playlists == s.game.playlists
      && s.game.usedTracks <= r.usedTracks
      && (r.currentTrack.Some? ==> r.currentTrack.value.id != id)
    decreases |cs|
  {
    if |cs| > 0 {
      ConsumedNeverReturns(s, cs[..|cs| - 1], id);
    }
  }

  /** Drawing a track and moving on consumes exactly one track while any
      remain. */
  lemma PlayThenNextConsumesOne(s: Session, rand: Fraction)
    requires ValidGame(s.game)
    requires GetGameStats(s.game).remainingTracks > 0
    ensures GetGameStats(Run(s, [Play(rand), Next]).game).remainingTracks
         == GetGameStats(s.game).remainingTracks - 1
  {
    DrawFailsIffNoneRemaining(s.game, rand);
    var step := PlayRandomTrack(s, rand);
    var played := step.session;
    assert step.track.Some?;
    assert played.game.currentTrack.Some?;
    assert GetGameStats(played.game) == GetGameStats(s.game);
    RunTwo(s, Play(rand), Next);
    MarkTrackAsUsedCounts(played);
  }

  /** Two commands run one after the other. */
  lemma RunTwo(s: Session, c1: Command, c2: Command)
    ensures Run(s, [c1, c2]) == Apply(Apply(s, c1), c2)
  {
    assert [c1, c2][..1] == [c1];
    assert [c1][..0] == [];
    assert Run(s, [c1]) == Apply(Run(s, []), c1);
  }

  /** The reveal flag can be set with no track in play: the session does not
      keep "revealed implies a track is in play". */
  lemma RevealWithoutTrack(s: Session)
    requires s.game.currentTrack.None?
    ensures RevealTrackInfo(s).game.currentTrack.None?
    ensures RevealTrackInfo(s).game.isTrackInfoRevealed
  {
  }
}
