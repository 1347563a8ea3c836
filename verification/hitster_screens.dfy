/** The two screens of the digital game, playlist entry and play, and the
    handlers that move between them on top of the session operations. */
module HitsterScreens {
  import opened GameTypes
  import opened SpotifyApi
  import opened DigitalGame

  datatype GamePhase = PlaylistInput | Playing

  /** The screen shown and the session behind it */
  datatype Screen = Screen(phase: GamePhase, session: Session)

  /** The game opens on the playlist entry screen with a fresh session. */
  const InitialScreen: Screen := Screen(PlaylistInput, InitialSession)

  /** What the screens rely on: a consistent session, and a non-empty pool
      whenever the play screen is shown. */
  ghost predicate ScreenInvariant(sc: Screen) {
    && ValidGame(sc.session.game)
    && (sc.phase == Playing ==> |sc.session.game.allTracks| > 0)
  }

  /** `handlePlaylistsSubmit`: loads the submitted playlists and moves to
      the play screen only when the load succeeded. */
  function HandlePlaylistsSubmit(sc: Screen, attempts: seq<Attempt>, yearOf: string -> Year): (r: Screen)
    ensures LoadPlaylists(sc.session, attempts, yearOf).outcome.Loaded? ==>
      && r.phase == Playing
      && |r.session.game.allTracks| > 0
      && r.session.game.usedTracks == {}
    ensures r.session == LoadPlaylists(sc.session, attempts, yearOf).session
    ensures LoadPlaylists(sc.session, attempts, yearOf).outcome.LoadFailed? ==>
      && r.phase == sc.phase
      && r.session.game == sc.session.game
      && r.session.error.Some?
    ensures ScreenInvariant(sc) ==> ScreenInvariant(r)
  {
    var step := LoadPlaylists(sc.session, attempts, yearOf);
    if step.outcome.Loaded? then Screen(Playing, step.session) else Screen(sc.phase, step.session)
  }

  /** `handleNextTrack`: consumes the track in play, on the same screen. */
  function HandleNextTrack(sc: Screen): (r: Screen)
    ensures r.phase == sc.phase
    ensures r.session == MarkTrackAsUsed(sc.session)
    ensures ScreenInvariant(sc) ==> ScreenInvariant(r)
  {
    sc.(session := MarkTrackAsUsed(sc.session))
  }

  /** The play screen's draw and reveal buttons call the session directly. */
  function HandleCommand(sc: Screen, c: Command): (r: Screen)
    ensures r.phase == sc.phase
    ensures r.session == Apply(sc.session, c)
    ensures r.session.game.allTracks == sc.session.game.allTracks
    ensures ScreenInvariant(sc) ==> ScreenInvariant(r)
  {
    sc.(session := Apply(sc.session, c))
  }

  /** `handleBackToPlaylists`: back to playlist entry, with the session reset
      but the loaded pool kept. */
  function HandleBackToPlaylists(sc: Screen): (r: Screen)
    ensures r.phase == PlaylistInput
    ensures r.session == ResetGame(sc.session)
    ensures r.session.game.allTracks == sc.session.game.allTracks
    ensures ScreenInvariant(sc) ==> ScreenInvariant(r)
  {
    Screen(PlaylistInput, ResetGame(sc.session))
  }

  /** `handleBackToMenu`: resets the session; leaving the game is the
      enclosing menu's business, so the phase stays. */
  function HandleBackToMenu(sc: Screen): (r: Screen)
    ensures r.phase == sc.phase
    ensures r.session == ResetGame(sc.session)
    ensures ScreenInvariant(sc) ==> ScreenInvariant(r)
  {
    sc.(session := ResetGame(sc.session))
  }

  /** The opening screen satisfies the invariant. */
  lemma InitialScreenInvariant()
    ensures InitialScreen.phase == PlaylistInput
    ensures ScreenInvariant(InitialScreen)
  {
    InitialSessionIsEmpty();
  }
}
