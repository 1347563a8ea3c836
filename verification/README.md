# Digital Hitster core, modelled in Dafny

Digital Hitster is a browser music-guessing game. Players paste one or more
Spotify playlist locators; the game loads every playlist from the catalog,
merges the tracks into one pool without duplicates, and then runs a session:
draw a random unplayed track, reveal its title, artist and year, mark it as
used, and repeat until the pool is exhausted.

This project models the logic of that core as immutable datatypes and pure
functions, and proves properties about them:

- `text.dfy` (module `Text`): the `[a-zA-Z0-9]` character class,
  ECMAScript `trim`, `Array.prototype.join` and decimal rendering of numbers.
- `game_types.dfy` (module `GameTypes`): `Track`, `Playlist`, `GameState`.
- `locator.dfy` (modules `Locator`, `LocatorExamples`): `extractPlaylistId`,
  with its three regular expressions modelled exactly as written.
- `spotify_api.dfy` (modules `SpotifyApi`, `MergeOrder`): the per-page
  track filter, the pagination loop, `fetchPlaylist`, and the
  first-seen-wins merge of `fetchMultiplePlaylists`.
- `digital_game.dfy` (module `DigitalGame`): the `useDigitalGame` hook as
  transitions over a session record.
- `playlist_form.dfy` (module `PlaylistForm`): the logic of the playlist
  entry form.
- `hitster_screens.dfy` (module `HitsterScreens`): the two-phase screen
  machine of `DigitalHitsterGame`.
- `wrappers.dfy` (module `Wrappers`): `Option` and `Result`.

The network, date parsing and the random source are parameters:

- Each locator comes paired with the catalog's answers for it (`Attempt`).
  These are the metadata reply and the page replies of the pagination loop.
- A page reply is a page or the status text of a failed response.
- `Math.random()` becomes a `Fraction` in [0, 1).
- Date parsing for the release year becomes a function `yearOf`.

The two halves meet in the session invariant `ValidGame`:

- every consumed id belongs to a pool track;
- pool ids are distinct, which the merge guarantees;
- a track in play is an unconsumed pool track.

Under this invariant the "remaining" statistic is exactly the number of
drawable tracks. So a draw returns nothing exactly when "remaining" is 0.

Three behaviours of the code that the model keeps:

- `revealTrackInfo` sets the reveal flag even when no track is in play. So
  "revealed implies a track is in play" is not an invariant of the code
  (`DigitalGame.RevealWithoutTrack`).
- The URI and URL patterns are unanchored searches. They accept the locator
  anywhere in the input and need no `https://`. A URI match is preferred to
  a URL match wherever each occurs.
- Failed playlists are only logged, not reported back. Reset keeps the pool,
  and there is no separate unload operation.

## Model

| member | source | states |
|---|---|---|
| `Text.TrimEmptyIffBlank` | src/components/PlaylistInput.tsx:31 | `!s.trim()` holds exactly when every character of `s` is ECMAScript whitespace or a line terminator |
| `Text.Join` | src/utils/spotifyApi.ts:62 | joining no names gives the empty string; the first name starts the joined string |
| `Text.JoinLength` | src/utils/spotifyApi.ts:62 | the artist string has the names' total length plus one `", "` between each pair of names |
| `Text.JoinSnoc` | src/utils/spotifyApi.ts:62 | one more artist appends `", "` and the name |
| `Text.NatToDecimal` | src/components/PlaylistInput.tsx:50 | the position in an error message is a non-empty digit string that reads back as the number and starts with `0` only when it is `0` itself, so it is the unique shortest numeral |
| `Locator.FindMatch` | src/utils/spotifyApi.ts:25-30 | the search returns the leftmost position where the prefix is followed by an alphanumeric, or none when there is no such position |
| `Locator.AlnumRun` | src/utils/spotifyApi.ts:21-22 | the greedy `[a-zA-Z0-9]+` takes a prefix of alphanumerics that cannot be extended |
| `Locator.Exec` | src/utils/spotifyApi.ts:20-30 | `match` finds nothing iff no position matches; otherwise it starts at the leftmost match and its capture is the maximal run after the prefix |
| `Locator.Test` | src/components/PlaylistInput.tsx:34-40 | `test` holds iff some position matches the pattern |
| `Locator.ExtractPlaylistId` | src/utils/spotifyApi.ts:13-33 | a bare alphanumeric input is returned unchanged; any result is a non-empty alphanumeric string; the result is null iff none of the three patterns matches |
| `Locator.ExtractFromUri` | src/utils/spotifyApi.ts:20-30 | for a non-bare input, the id is the maximal run after the leftmost `spotify:playlist:` match, whatever else the input contains |
| `Locator.ExtractFromUrl` | src/utils/spotifyApi.ts:20-30 | when no URI match exists, the id is the maximal run after the leftmost `open.spotify.com/playlist/` match, with no scheme required |
| `Locator.ResolvableIsNotBlank` | src/components/PlaylistInput.tsx:30-40 | an input any pattern accepts contains an alphanumeric, so it is not blank |
| `LocatorExamples.ResolveUriSample` | src/utils/spotifyApi.ts:20-30 | `spotify:playlist:37i9dQZF1DXcBWIGoYBM5M` resolves to `37i9dQZF1DXcBWIGoYBM5M` |
| `LocatorExamples.ResolveBareSample` | src/utils/spotifyApi.ts:14-17 | the help text's bare id `37i9dQZF1DXcBWIGoYBM5M` resolves to itself |
| `LocatorExamples.ResolveUrlSample` | src/utils/spotifyApi.ts:20-30 | the help text's `https://open.spotify.com/playlist/37i9dQZF1DXcBWIGoYBM5M` resolves to `37i9dQZF1DXcBWIGoYBM5M`: the URI pattern matches nowhere in it, and the URL pattern's leftmost match is right after the scheme |
| `LocatorExamples.RejectNonLocator` | src/utils/spotifyApi.ts:13-33 | `not a url` resolves to null |
| `SpotifyApi.ToTrack` | src/utils/spotifyApi.ts:59-68 | a kept entry becomes a game track with the entry's non-empty id, name, uri, album name, release date and preview URL; the year is the parsed release date; the artist string is the artists' names joined with `", "` in artist order |
| `SpotifyApi.ArtistNames` | src/utils/spotifyApi.ts:62 | the names list has one name per artist, in artist order |
| `SpotifyApi.PageTracks` | src/utils/spotifyApi.ts:57-71 | every kept entry has a non-empty id; exactly the entries with a track and a non-empty id are kept, converted; never more tracks than entries |
| `SpotifyApi.PageTracksConcat` | src/utils/spotifyApi.ts:42-75 | filtering page by page in page order equals filtering all entries at once |
| `SpotifyApi.PageTracksKeepsPlayable` | src/utils/spotifyApi.ts:58 | a page whose entries are all playable loses none |
| `SpotifyApi.FetchPlaylistTracks` | src/utils/spotifyApi.ts:38-78 | fails iff the last reply of the chain is not OK, with that reply's status in the message; otherwise yields the filtered entries of all pages in page order, at most one track per entry |
| `SpotifyApi.FetchPlaylist` | src/utils/spotifyApi.ts:83-113 | an unresolvable locator fails with "Invalid playlist URL or ID" before any request; a failed metadata request fails with its status; success iff all three steps succeed, with the extracted id, the original locator as `url`, the metadata name and the page tracks |
| `SpotifyApi.AddTrackFacts` | src/utils/spotifyApi.ts:129-131 | one insertion keeps existing entries, grows the pool by at most one, adds exactly the track's id, and keeps ids distinct |
| `SpotifyApi.AddTracks` | src/utils/spotifyApi.ts:128-132 | adding tracks never overwrites an existing entry, the pool's ids become the union, and distinct ids stay distinct |
| `SpotifyApi.AddTracksConcat` | src/utils/spotifyApi.ts:122-132 | merging playlist after playlist equals merging their concatenated tracks |
| `SpotifyApi.SuccessesSingle` | src/utils/spotifyApi.ts:122-137 | one locator contributes its playlist when the fetch succeeds and nothing when it fails |
| `SpotifyApi.SuccessesConcat` | src/utils/spotifyApi.ts:122-137 | locators are tried in input order: the playlists kept for a concatenation are those of the first part followed by those of the second, so order and repetitions follow the input |
| `SpotifyApi.SuccessesMembers` | src/utils/spotifyApi.ts:122-137 | every kept playlist is the successful fetch of some attempt, and every successful fetch is kept |
| `SpotifyApi.FetchMultiplePlaylists` | src/utils/spotifyApi.ts:118-142 | a failed locator is skipped without stopping the others; the playlists are the successful fetches in input order, and the pool is their tracks merged into an empty pool playlist after playlist |
| `SpotifyApi.MergedPoolIds` | src/utils/spotifyApi.ts:118-142 | the merged pool holds each id once, and its ids are exactly the ids of the loaded playlists' tracks |
| `MergeOrder.AddTracksIsFirstSeenDedup` | src/utils/spotifyApi.ts:128-139 | the pool holds each id once, as the first track carrying it, ordered by where its id was first seen |
| `MergeOrder.MergeKeepsFirstSeen` | src/utils/spotifyApi.ts:118-142 | the merged pool is the first-seen deduplication of the successful playlists' tracks; a shared id keeps the earliest playlist's track |
| `MergeOrder.OverlappingPlaylists` | src/utils/spotifyApi.ts:120-139 | playlists [x, y] and [y', z] with y' sharing y's id merge to [x, y, z] |
| `DigitalGame.InitialSessionIsEmpty` | src/hooks/useDigitalGame.ts:6-13 | the fresh session has no track in play, no reveal, all statistics 0, and is consistent |
| `DigitalGame.LoadPlaylists` | src/hooks/useDigitalGame.ts:23-51 | an empty merged pool fails with "No tracks found in the provided playlists" and leaves the game untouched; otherwise the pool and playlists are replaced, consumption and reveal are cleared, `trackCount` is the pool size, and the new game is consistent |
| `DigitalGame.Available` | src/hooks/useDigitalGame.ts:57-59 | the available tracks are exactly the pool tracks whose id is not consumed |
| `DigitalGame.RandomIndex` | src/hooks/useDigitalGame.ts:65 | `floor(rand * n)` lies in [0, n) |
| `DigitalGame.IndexFraction` | src/hooks/useDigitalGame.ts:65 | every index below n is selected by some value of `Math.random()` |
| `DigitalGame.GetRandomTrack` | src/hooks/useDigitalGame.ts:56-67 | returns null iff every pool track is consumed; otherwise an unconsumed pool track |
| `DigitalGame.EveryAvailableTrackCanBeDrawn` | src/hooks/useDigitalGame.ts:65-66 | every available track is drawn for some random value |
| `DigitalGame.PlayRandomTrack` | src/hooks/useDigitalGame.ts:72-87 | a draw puts the track in play with reveal off and changes nothing else; no draw sets "No more tracks available in the game" and leaves the game untouched; consistency is kept |
| `DigitalGame.RevealTrackInfo` | src/hooks/useDigitalGame.ts:92-97 | only the reveal flag changes, and it is set |
| `DigitalGame.RevealWithoutTrack` | src/hooks/useDigitalGame.ts:92-97 | the flag is set even with no track in play |
| `DigitalGame.MarkTrackAsUsed` | src/hooks/useDigitalGame.ts:102-115 | with a track in play its id is added to the consumed set and track and reveal are cleared, pool unchanged; without one nothing changes; consistency is kept |
| `DigitalGame.MarkTrackAsUsedCounts` | src/hooks/useDigitalGame.ts:102-115 | in a consistent game, consuming adds exactly 1 to "used" and takes 1 from "remaining" |
| `DigitalGame.ResetGame` | src/hooks/useDigitalGame.ts:120-128 | consumption, track in play, reveal and error are cleared; pool and playlists stay |
| `DigitalGame.ResetGameStats` | src/hooks/useDigitalGame.ts:120-128 | after a reset "used" is 0, "remaining" is the total, total and playlist count are unchanged |
| `DigitalGame.LoadedStats` | src/hooks/useDigitalGame.ts:133-140 | right after a successful load the panel shows the pool size as total and as remaining, 0 used, and one playlist per successful locator |
| `DigitalGame.OverlappingLoadStats` | src/hooks/useDigitalGame.ts:23-51 | loading playlists [x, y] and [y', z], where y' shares y's id, reports 3 tracks, and the panel reads 3 total, 0 used, 3 remaining, 2 playlists |
| `DigitalGame.AvailableCount` | src/hooks/useDigitalGame.ts:57-59 | with distinct ids and consumed ids drawn from the pool, available plus consumed equals the pool size |
| `DigitalGame.GetGameStats` | src/hooks/useDigitalGame.ts:133-140 | the total is the pool size, the playlist count is the number of loaded playlists, "used" is the number of consumed ids, and used plus remaining is the total |
| `DigitalGame.RemainingIsAvailable` | src/hooks/useDigitalGame.ts:133-140 | in a consistent game `remainingTracks` equals the number of available tracks, so it is never negative |
| `DigitalGame.DrawFailsIffNoneRemaining` | src/hooks/useDigitalGame.ts:56-67 | in a consistent game a draw returns null iff `remainingTracks` is 0 |
| `DigitalGame.ConsumedNeverReturns` | src/hooks/useDigitalGame.ts:72-115 | over any run of draws, reveals and next-track steps, the pool is fixed, consumption only grows, consistency holds, and a consumed id is never in play again |
| `DigitalGame.PlayThenNextConsumesOne` | src/hooks/useDigitalGame.ts:72-115 | while tracks remain, draw then next lowers "remaining" by exactly 1 |
| `PlaylistForm.AddPlaylistInput` | src/components/PlaylistInput.tsx:13-15 | one empty entry is appended and the others are kept |
| `PlaylistForm.DropPosition` | src/components/PlaylistInput.tsx:19 | filtering out `index` removes exactly that position and shifts the later ones down; an index outside the list removes nothing |
| `PlaylistForm.RemovePlaylistInput` | src/components/PlaylistInput.tsx:17-22 | the list never drops below one entry; with more than one entry exactly position `index` is removed, the rest in order |
| `PlaylistForm.UpdatePlaylistUrl` | src/components/PlaylistInput.tsx:24-28 | only position `index` changes, to the new value, and the length is kept |
| `PlaylistForm.FormNeverEmpty` | src/components/PlaylistInput.tsx:9-28 | starting from the single empty entry, no sequence of add, remove and type edits leaves the form without an entry row |
| `PlaylistForm.ValidatePlaylistUrl` | src/components/PlaylistInput.tsx:30-41 | a blank entry is invalid |
| `PlaylistForm.ValidateIffResolvable` | src/components/PlaylistInput.tsx:30-41 | an entry validates iff `extractPlaylistId` resolves it |
| `PlaylistForm.NonBlankEntries` | src/components/PlaylistInput.tsx:44 | exactly the entries that are not blank are kept, untrimmed, never more entries than given |
| `PlaylistForm.NonBlankEntriesConcat` | src/components/PlaylistInput.tsx:44 | filtering a concatenation filters each part, so the kept entries stay in input order with their repetitions |
| `PlaylistForm.NonBlankEntriesSingle` | src/components/PlaylistInput.tsx:44 | a single entry is kept exactly when it is not blank; with the concatenation lemma this fixes the filtered list on every input |
| `PlaylistForm.InvalidEntryErrors` | src/components/PlaylistInput.tsx:47-52 | one message per invalid entry, in entry order: the entry at position `i` that fails validation has the message naming position `i + 1` in the slot given by the number of failing entries before it |
| `PlaylistForm.HandleSubmit` | src/components/PlaylistInput.tsx:43-63 | submits iff there are no errors, and then exactly the non-blank entries; no errors iff there is a non-blank entry and all of them validate; the error count is the number of invalid non-blank entries, plus one if there are none; each invalid entry's message names its 1-based position among the non-blank entries, in entry order; with no non-blank entry the only message is "Please add at least one playlist" |
| `PlaylistForm.SubmittedEntriesResolve` | src/components/PlaylistInput.tsx:43-62 | whatever is submitted is non-empty and every entry resolves to a playlist id |
| `HitsterScreens.InitialScreenInvariant` | src/components/DigitalHitsterGame.tsx:14 | the game opens on playlist entry with a consistent session |
| `HitsterScreens.HandlePlaylistsSubmit` | src/components/DigitalHitsterGame.tsx:32-39 | the phase becomes `playing` only on a successful load, with exactly the session the load produced (a fresh non-empty pool, nothing consumed); a failed load keeps phase and game and shows an error |
| `HitsterScreens.HandleNextTrack` | src/components/DigitalHitsterGame.tsx:41-43 | the next-track button is exactly `markTrackAsUsed`, on the same screen |
| `HitsterScreens.HandleCommand` | src/components/DigitalHitsterGame.tsx:93-97 | the play screen's draw and reveal buttons run exactly the session's draw and reveal, keeping the phase and the pool |
| `HitsterScreens.HandleBackToPlaylists` | src/components/DigitalHitsterGame.tsx:45-48 | the session is reset with the pool kept, and the phase returns to playlist entry |
| `HitsterScreens.HandleBackToMenu` | src/components/DigitalHitsterGame.tsx:50-53 | the session is reset |

Every handler in `HitsterScreens` also keeps `ScreenInvariant`: the session
is consistent, and the play screen always has a non-empty pool.

## Left out

- Network I/O is not modelled: `fetch`, bearer headers, HTTP status codes and JSON decoding. A reply is a page or a name, or the status text of a response that was not OK.
- A rejected `fetch` and malformed JSON are not modelled separately. The source catches them like a failed status and skips the playlist, so they fold into failure replies.
- `SpotifyApi.FetchPlaylistTracks`: a catalog whose next-page chain never ends is not modelled. The page replies are a finite `Conversation`: every reply but the last continues the chain.
- The release year is not computed. `new Date(...).getFullYear()` depends on the time zone and can give NaN, so it is the parameter `yearOf`, whose result may be `InvalidYear`.
- `Math.random` is not modelled as a distribution; the draw takes its value as a parameter.
- React concerns are left out: asynchrony, `isLoading`, `console.error`, the loading message text and rendering.
- The stale `gameState.currentTrack` closure in `markTrackAsUsed` is not modelled; the model reads the current state.
- The fallback message "Failed to load playlists" is not modelled. It needs a thrown non-`Error`, and `fetchMultiplePlaylists` catches every failure itself.
- `PlaylistForm.UpdatePlaylistUrl`: requires an index inside the list, which is what the form passes. An index past the end would leave holes in the JavaScript array, and strings cannot hold them.
- Strings are sequences of Unicode scalar values, not UTF-16 code units. All pattern and whitespace characters are in the Basic Multilingual Plane, so no result changes.
- `HitsterScreens.HandleBackToMenu`: the `onBackToMenu` callback belongs to the enclosing menu, so leaving the game is not modelled.
- `gameMode` is carried along but never changes; nothing in the core sets `'qr'`.
- `src/components/GameController.tsx` and `src/components/DigitalGamePlay.tsx` are not part of this model. They hold rendering, QR scanning, wake locks and playback calls.
