# bc-metadata-archiver, modelled in Dafny

This project models the logic of a browser extension that archives Bandcamp
album metadata. A click on its toolbar button, while an album or track page
is open, does the following:

- downloads the album's cover art;
- creates an empty YAML stub for the album;
- opens every track page in a background tab, downloads each track's art
  and closes the tab;
- resets the extension-wide button state once the last track tab has been
  handled; the clicked tab keeps its own "Cancel Download" state.

The model covers the two core files:

- `utils.js`, the pure helpers:
  - file-name normalisation and track-name slugs;
  - the Bandcamp URL test;
  - the download paths.
- `background.js`, the event logic:
  - the toolbar state machine;
  - the art-URL rewrite;
  - the album reply;
  - the per-track fan-out with its `remainingTracks` countdown.

Modules:

- `Ascii` (`ascii.dfy`): ASCII character classes and lower-casing.
- `FileNames` (`file_names.dfy`): `normalizeFileName`. Each regular-expression
  replace is a left-to-right scan, proved against a reference description
  of what it produces.
- `TrackNames` (`track_names.dfy`): `normalizeTrackName`, step by step, plus the
  slug properties. Its white-space class is the full set that JavaScript's `\s`
  matches. The two run-collapsing replaces are proved equal to a
  reference that turns every maximal run into one dash.
- `BandcampUrl` (`bandcamp_url.dfy`): `urlIsApplicable`, an unanchored search
  for `https://<sub>.bandcamp.com/(album|track)/<slug>`.
- `ArtUrl` (`art_url.dfy`): the `_10.(jpg|png)` to `_0.` rewrite.
- `DownloadPaths` (`download_paths.dfy`): the file names given to downloads,
  and their split into path components.
- `Toolbar` (`toolbar.dfy`): the button's per-tab and extension-wide title and
  icon. The class `ActionBoard` holds them, and its methods are
  `setActionState`, `initializePageAction`, `cancelDownload`, `toggleStatus`,
  `finalizeDownloadProcess` and the URL-change listener.
- `Background` (`background.js` run logic): `startDownload`'s reply handling,
  `extractTracksAndDownload`, the load listener of each track tab,
  `handleTrackTab` and the countdown.
  - The class `TrackSession` holds one run's counter, registered listeners,
    closed tabs and requested downloads.
  - The pure functions `Open`, `Step` and `Steps` describe the same state,
    and the lemmas about the countdown are proved over them.

Inputs the model takes as parameters:

- the content script's replies;
- whether each `tabs.create` succeeded, and the tab id it returned;
- the order of `tabs.onUpdated` events;
- the extension an image download settles on.

### Where the model follows the code rather than the documented intent

- An album whose track list is empty (`trackLinks: []`) starts a run with the
  counter at 0. No tab is opened, no event decrements the counter, and
  `finalizeDownloadProcess` is never called, so the button keeps showing
  "Cancel Download". An empty array is truthy in JavaScript, so the run is
  started. `Background.NoLinksNoTabs` states this.
- An album reply without an art link does not stop the download. The tracks
  are still fetched under the reply's title. Only a failed or empty reply
  cancels: reading `response.title` then throws, and the catch calls
  `cancelDownload`.
- `finalizeDownloadProcess` resets the extension-wide title and icon, not the
  tab's. A tab whose button was set to "Cancel Download" keeps it
  (`Toolbar.FinalizeKeepsTabState`).
- A track tab that fails to open is never counted down, so the run never
  finalizes (`Background.FailedTabNeverFinalizes`).

## Model

| member | source | states |
|---|---|---|
| Ascii.LowerChar | utils.js:8 | the lower-cased character is not an upper-case letter; `A`-`Z` move to `a`-`z`, everything else is kept |
| Ascii.Lower | utils.js:8 | `toLowerCase` on ASCII keeps the length and lower-cases each character in place |
| Ascii.LowerOfLowerCase | utils.js:22 | lower-casing text that is already lower-case changes nothing |
| FileNames.ReplaceIllegal | utils.js:10 | the left-to-right scan of the global replace: an illegal character becomes `repl`, a run of spaces reaching the end becomes one `repl`, anything else is kept; `ReplaceIllegalSpec` ties it to the per-character reference `Substituted` |
| FileNames.StripDots | utils.js:8 | the scan of `^\.\|\.+$`: one dot at position 0 and the trailing run of dots are dropped; `StripDotsSpec` states the result |
| FileNames.NormalizeFileName | utils.js:6-12 | a file name has its illegal characters replaced and is lower-cased; a directory name is the file-name form with dots stripped, lower-cased; `FileNameIsLegal` and `DirectoryNameShape` state what comes out |
| FileNames.Spaces | utils.js:10 | specification helper: a run of `k` spaces, the operand of `\ +$` |
| FileNames.ReplaceIllegalSpec | utils.js:10 | the global replace of `[\\/:*?"<>|\t]\|\ +$` equals per-character substitution of the illegal characters, followed by one `repl` for a trailing run of spaces |
| FileNames.ReplaceIllegalIsLegal | utils.js:10 | with a legal replacement, no illegal character survives |
| FileNames.ReplaceIllegalNoTrailingSpace | utils.js:10 | with a replacement that does not end in a space, the result does not end in a space |
| FileNames.FileNameIsLegal | utils.js:6-12 | a normalised file name has no illegal character, no trailing space and no upper-case letter |
| FileNames.StripDotsSpec | utils.js:8 | `^\.\|\.+$` removes at most one leading dot and the whole trailing run of dots, and keeps what lies between |
| FileNames.StripDotsTail | utils.js:8 | without the leading alternative, exactly the trailing run of dots goes |
| FileNames.DirectoryNameShape | utils.js:7-8 | a directory name is lower-case and does not end with a dot |
| FileNames.DirectoryKeepsSecondDot | utils.js:8 | only one leading dot is removed: `"..x"` becomes `".x"` |
| FileNames.LowerKeepsLegal | utils.js:8 | lower-casing introduces no illegal character |
| FileNames.DirectoryNameIsLegal | utils.js:6-12 | a directory name has no illegal character, in particular no `/` |
| TrackNames.DashSpaces | utils.js:18 | the scan of `\s+` to `-`; `DashSpacesIsRunwise` proves it replaces every maximal run of white space by one dash |
| TrackNames.ExpandAmpersands | utils.js:19 | each `&` becomes `and` and every other character is kept; `AlnumsOfKeptExpansion` states what it leaves for the later steps |
| TrackNames.KeepSegmentChars | utils.js:20 | removing `[^a-zA-Z0-9-]` leaves only letters, digits and dashes, and never lengthens |
| TrackNames.KeepDropsOther | utils.js:20 | a character outside `[a-zA-Z0-9-]` is dropped, not replaced: what surrounds it is kept as if it were not there |
| TrackNames.CollapseDashes | utils.js:21 | `-{2,}` to `-` leaves no two adjacent dashes and keeps the alphabet |
| TrackNames.RunLength | utils.js:18-21 | specification helper: the length of the leading run of characters satisfying `p`; all of them satisfy it and the next one does not |
| TrackNames.DashSpacesIsRunwise | utils.js:18 | `\s+` to `-` equals the reference `RunsReplaced`: every maximal run of white space becomes exactly one dash and every other character is kept |
| TrackNames.CollapseDashesIsRunwise | utils.js:21 | `-{2,}` to `-` equals `RunsReplaced`: every maximal run of dashes becomes exactly one dash and every other character is kept |
| TrackNames.TrimDashes | utils.js:22 | the leading run of dashes is removed, then the trailing run; `TrimKeepsShape` states the result |
| TrackNames.NormalizeTrackName | utils.js:17-24 | the five replaces in order, then lower-casing; `NormalizeTrackNameIsSlug`, `NormalizeTrackNameWords`, `NormalizeTrackNameIdempotent`, `SeparatorJoinsSlugs` and `PunctuationBetweenSlugsVanishes` state what it computes |
| TrackNames.DropLeadingDashes | utils.js:22 | `^-+` removes exactly the leading run of dashes |
| TrackNames.DropTrailingDashes | utils.js:22 | `-+$` removes exactly the trailing run of dashes |
| TrackNames.TrimKeepsShape | utils.js:22 | after trimming, the name neither starts nor ends with a dash and still has no double dash |
| TrackNames.NormalizeTrackNameIsSlug | utils.js:17-24 | a normalised track name is a slug: only `a-z0-9-`, no leading, trailing or doubled dash |
| TrackNames.NormalizeSlug | utils.js:17-24 | a slug is left unchanged |
| TrackNames.NormalizeTrackNameIdempotent | utils.js:17-24 | normalising twice gives the same as once |
| TrackNames.NormalizeTrackNameWords | utils.js:17-24 | the letters and digits of the result are those of the title, lower-cased and in order, with every `&` read as `and` |
| TrackNames.PunctuationOnlyIsEmpty | utils.js:17-24 | a title with no letter, digit or `&` normalises to the empty name |
| TrackNames.AmpersandBecomesAnd | utils.js:18-22 | `"x & y"` becomes `"x-and-y"` for lower-case letters or digits `x`, `y`: the spaces become dashes and `&` becomes `and` |
| TrackNames.SeparatorJoinsSlugs | utils.js:17-24 | two non-empty slugs with any run of white space and dashes between them come out joined by a single dash |
| TrackNames.SpacedDashJoinsSlugs | utils.js:17-24 | `"x - y"` becomes `"x-y"` for non-empty slugs `x` and `y` |
| TrackNames.PunctuationBetweenSlugsVanishes | utils.js:17-24 | punctuation that is not white space, `&` or a segment character, between two slugs, vanishes: `"don't"` becomes `"dont"` |
| TrackNames.SlugPassesTail | utils.js:20-22 | the last three replaces and the lower-casing leave a slug unchanged |
| TrackNames.Alnums | utils.js:20 | specification helper: the letters-and-digits projection used to state what survives never lengthens |
| BandcampUrl.MatchesAt | utils.js:105 | the regex tried at the start of `t`: `https://`, the longest run of segment characters (at least one), `.bandcamp.com/`, `album` or `track`, `/` and one segment character; `MatchesAtSound` and `MatchesAtUrl` tie it to the URL shape in both directions |
| BandcampUrl.UrlIsApplicable | utils.js:104-108 | `test` with an unanchored regex: some position starts a match; `ApplicableIffSomeSubstringMatches` restates it in terms of Bandcamp URLs |
| BandcampUrl.SegmentLength | utils.js:105 | the greedy run `[a-zA-Z0-9-]+` covers exactly the leading segment characters |
| BandcampUrl.MatchesAtSound | utils.js:105 | a match of the pattern at a position is a URL built from a segment host, `album` or `track` and a segment slug |
| BandcampUrl.MatchesAtExtends | utils.js:105 | text after a match does not undo it: the regex is not anchored at the end |
| BandcampUrl.MatchesAtUrl | utils.js:105 | every `https://<sub>.bandcamp.com/<album\|track>/<slug>` matches at its start |
| BandcampUrl.MatchAt | utils.js:104-108 | a match at position `i` yields the matched URL's parts |
| BandcampUrl.MatchMakesApplicable | utils.js:104-108 | a Bandcamp URL at position `i` makes the whole string match there |
| BandcampUrl.ApplicableIffSomeSubstringMatches | utils.js:104-108 | `urlIsApplicable` holds exactly when some substring is a Bandcamp album or track URL |
| BandcampUrl.ApplicableUnderContext | utils.js:104-108 | a Bandcamp URL stays applicable with any prefix and suffix, such as a query string |
| BandcampUrl.AlbumAndTrackUrlsApplicable | utils.js:104-108 | album and track page URLs are applicable |
| BandcampUrl.MatchHasColon | utils.js:105 | every match has the colon of `https:` at its sixth character |
| BandcampUrl.PlainHttpNotApplicable | utils.js:104-108 | the same page over `http://` is not applicable |
| BandcampUrl.MissingSlugNotApplicable | utils.js:104-108 | `https://<sub>.bandcamp.com/album/` without a slug is not applicable |
| ArtUrl.FullSizeArtUrl | background.js:45 | `replace(/_10\.(jpg\|png)$/, '_0.$1')`: the thumbnail suffix at the end is rewritten, any other URL is kept; `RewritesThumbnailSuffix` and `UnchangedIffNoThumbnailSuffix` state both cases |
| ArtUrl.RewritesThumbnailSuffix | background.js:45 | `<prefix>_10.jpg` and `<prefix>_10.png` become `<prefix>_0.<ext>` |
| ArtUrl.UnchangedIffNoThumbnailSuffix | background.js:110 | the URL is unchanged exactly when it does not end in `_10.jpg` or `_10.png` |
| ArtUrl.RewriteIdempotent | background.js:45 | rewriting an already rewritten URL changes nothing |
| DownloadPaths.ArtPath | utils.js:58-60 | the art file name template, ending in `cover` or the normalised title; `ArtPathComponents` states its components |
| DownloadPaths.YamlPath | utils.js:81 | the stub file name template; `YamlPathComponents` states its components |
| DownloadPaths.AlbumDirectory | background.js:46 | the album title normalised as a directory name with `-`; `AlbumDirectoryIsOneComponent` states that it is one path component |
| DownloadPaths.Split | utils.js:58-60 | specification helper: splitting at `/` gives at least one component |
| DownloadPaths.SplitWithoutSeparator | utils.js:58-60 | specification helper: a name without `/` is one component |
| DownloadPaths.SplitAtSeparator | utils.js:58-60 | specification helper: splitting distributes over the first separator |
| DownloadPaths.ArtFileNameHasNoSlash | utils.js:58-60 | with a title free of `/`, the file part `cover<ext>` or `<title><ext>` has no `/` |
| DownloadPaths.ArtPathComponents | utils.js:55-60 | an art file is saved as `<album>/album-art/<album>/<cover or title><ext>`, four components |
| DownloadPaths.YamlPathComponents | utils.js:80-81 | the stub is saved as `<album>/album/<album>.yaml`, three components |
| DownloadPaths.AlbumDirectoryIsOneComponent | background.js:46 | the album directory from `normalizeFileName(title, "-", true)` has no `/` and is neither `.` nor `..` |
| DownloadPaths.TrackArtStaysInAlbum | background.js:110-114 | a track's art lands in its album's `album-art` directory, named by the track's slug |
| Toolbar.PageActionFor | background.js:148-154 | an applicable page gets "Download Metadata" with the `off` icon; any other page gets "Not a Bandcamp Album" with the `disabled` icon |
| Toolbar.ClickFor | background.js:19-25 | a click starts a download exactly when the button reads "Download Metadata", and cancels otherwise |
| Toolbar.Set | utils.js:29-32 | setActionState on the board: a tab id sets that tab's title and icon, `null` the extension-wide ones; `FinalizeKeepsTabState` states what a `null` call leaves |
| Toolbar.Toggled | background.js:19-36 | the board after a click: busy when the button read "Download Metadata", otherwise reset and initialised for the page; `ClickOnIdleStarts`, `ClickOtherwiseCancels` and `ClickTwiceRestoresIdle` state its effect |
| Toolbar.ClickOnIdleStarts | background.js:19-36 | a click on an idle button shows "Cancel Download" with the `on` icon; other tabs are untouched |
| Toolbar.ClickOtherwiseCancels | background.js:19-25 | any other click restores the page's own state; other tabs are untouched |
| Toolbar.ClickTwiceRestoresIdle | background.js:19-25 | on an album page, two clicks bring the button back to idle |
| Toolbar.FinalizeKeepsTabState | background.js:129-132 | finalising sets the extension-wide state only; a tab with its own state keeps it |
| Toolbar.ActionBoard.constructor | background.js:13-14 | the board starts from one extension-wide state and no per-tab state; that initial title and icon come from the extension manifest, which is not part of this model, so they are a parameter |
| Toolbar.ActionBoard.SetActionState | utils.js:29-32 | a tab id sets that tab's title and icon; `null` sets the extension-wide ones |
| Toolbar.ActionBoard.InitializePageAction | background.js:148-154 | the tab shows the state `PageActionFor` chooses for its URL |
| Toolbar.ActionBoard.CancelDownload | background.js:138-142 | the tab ends up showing its page's state |
| Toolbar.ActionBoard.ToggleStatus | background.js:19-36 | the click is chosen by the tab's current title, and the board becomes `Toggled` |
| Toolbar.ActionBoard.FinalizeDownloadProcess | background.js:129-132 | the extension-wide state becomes idle; per-tab states are kept |
| Toolbar.ActionBoard.OnTabUpdated | background.js:159-163 | a change to an applicable URL sets the tab idle; any other update leaves the board unchanged |
| Background.AlbumReply | background.js:39-61 | a failed reply aborts; otherwise the run goes on under the reply's title, with the cover and stub downloads when the reply has art and none when it does not |
| Background.AlbumFilesInAlbumDirectory | background.js:44-51 | the cover and the stub land in the album's directory |
| Background.TrackDownloadInAlbum | background.js:103-114 | a track with art yields one download of the full-size art, saved under the album as the track's slug |
| Background.NoArtNoTrackDownload | background.js:105-117 | a track page without an art link leads to no download |
| Background.TrackDownloads | background.js:103-117 | the art download handleTrackTab asks for when the track page has art, and none otherwise; `TrackDownloadInAlbum` states where it lands and `NoArtNoTrackDownload` that nothing is asked for without art |
| Background.Listeners | background.js:74-87 | one listener per opened tab, holding its track's title; `ListenersAreCreatedTabs` states which tabs have one and `ListenerTitle` which title each holds |
| Background.Open | background.js:72-91 | the run after the fan-out: the counter at the number of links, one listener per opened tab, nothing closed, downloaded or finalised |
| Background.Step | background.js:77-86 | one `tabs.onUpdated` event: the first `complete` event of a listened tab removes its listener, closes the tab, requests its art and counts down, finalising at zero; any other event changes nothing; `StepAccounts` states what it preserves and `OtherEventChangesNothing` that any other event leaves the whole run as it was |
| Background.Steps | background.js:77-86 | the events in order; `FinalizeOnceWhenAllComplete` and `FailedTabNeverFinalizes` state the outcome of the countdown |
| Background.ListenersAreCreatedTabs | background.js:74-87 | a listener is registered for exactly the tabs that opened |
| Background.ListenerTitle | background.js:76-80 | the listener of the tab opened for link `i` holds that link's title, the `track.title` its closure captured |
| Background.ListeningKeepsTitles | background.js:77-79 | events only remove listeners; every listener left keeps the title it was registered with |
| Background.FirstCompletionUsesOwnTitle | background.js:77-80 | the first `complete` event of the tab opened for link `i` requests exactly the art download named after link `i`'s title |
| Background.CreatedIdFrom | background.js:76 | every opened tab comes from one of the creates |
| Background.CreatedIdsLength | background.js:74-76 | at most one tab per link; one per link when all creates succeed; distinct ids when the browser gives them |
| Background.FailedCreateShortens | background.js:88-90 | a failed create leaves fewer tabs than links |
| Background.NoDuplicatesLength | background.js:81 | specification helper: the number of distinct tabs counted down is bounded by the tabs opened |
| Background.CoversWhenAsLong | background.js:82 | specification helper: reaching zero means every opened tab has been counted |
| Background.StepAccounts | background.js:77-85 | one `tabs.onUpdated` event keeps the countdown invariant (listeners = opened minus completed, closed = completed with no repeat, counter = links minus closed, finalised once at zero) |
| Background.CompletedSnoc | background.js:78 | specification helper: one more event adds its tab to the completed ones exactly when it is a `complete` event for an opened tab |
| Background.StepsAccount | background.js:72-123 | the countdown invariant holds after any sequence of events |
| Background.FinalizeOnceWhenAllComplete | background.js:72-85 | with every tab opened, `finalizeDownloadProcess` has run once exactly when every track tab has completed, and never more than once |
| Background.FinalizeOnLastCompletion | background.js:80-84 | finalisation happens on the event that completes the last outstanding tab, after every link's tab opened |
| Background.FailedTabNeverFinalizes | background.js:72-90 | if any create failed, the counter stays above zero and the run never finalises |
| Background.NoLinksNoTabs | background.js:69-74 | with an empty track list no listener exists and no event changes the run, so it never finalises |
| Background.EachTabClosedOnce | background.js:120-122 | each track tab is closed at most once, and exactly the completed ones are closed, whatever their reply |
| Background.OtherEventChangesNothing | background.js:77-78 | an event that is not the first `complete` of an opened tab leaves the run unchanged: no download, no close, no count-down, no finalisation |
| Background.RemainingNeverNegative | background.js:81 | the `remainingTracks` counter never goes below zero |
| Background.HandleTrackTabOnce | background.js:103-123 | the first `complete` event closes and counts down the tab whether or not it had art; one download is added when the page has art and none otherwise; the removed listener ignores a second event |
| Background.TrackSession.constructor | background.js:72-87 | after the fan-out the counter is the number of links and the listeners are those of `Open` |
| Background.TrackSession.HandleTrackTab | background.js:103-123 | the art download is appended when present, the tab closed and the counter decremented; the board is finalised exactly when the counter reaches zero |
| Background.TrackSession.OnUpdated | background.js:77-87 | the run becomes `Step` of the old run; the board is finalised exactly on the event that finalises the run |
| Background.StartDownloadReply | background.js:39-61 | the outcome is `AlbumReply`; a failed reply cancels: the tab is set idle and then to its page's state, and the other tabs and the extension-wide state are left as they were |
| Background.ExtractTracksAndDownload | background.js:67-98 | a reply with a link list, possibly empty, starts a fresh run in state `Open`; a failed reply starts none |

## Left out

- Browser I/O is not executed: `browser.downloads.download`, `tabs.create`, `tabs.remove`, `tabs.sendMessage`, `action.getTitle` and the logging. Their outcomes are parameters or are recorded in the state (requested downloads, closed tabs).
- `verifyImageAndDetermineExtension` loads an image. The extension it settles on is an input (`Ext`: `.png` or `.jpg`).
- The content script (`content.js`) is not part of this model. Its replies are inputs.
- Background.TrackSession.HandleTrackTab: handles a track tab in one atomic step. In the source, the reply, the tab removal and the callback are asynchronous and may interleave with other tabs' events. The counter only changes by decrements, so the order does not change the outcome.
- Background.StartDownloadReply: the browser's internal failures while reading the album reply are folded into `None`. A reply object with no `title` is not modelled: titles are always strings.
- Toolbar.ActionBoard.OnTabUpdated: initialises the tab from the changed URL. The source uses the updated tab's `url`, which the browser reports equal to the changed URL.
- Toolbar.ActionBoard.ToggleStatus: a failing `action.getTitle` (only logged in the source) is not modelled.
- FileNames.NormalizeFileName: `$` patterns in `repl` are not interpreted. The only caller passes `"-"`.
- Ascii.Lower: lower-cases ASCII only. `toLowerCase` on non-ASCII letters in file names is not modelled. For track names this is exact, since only ASCII survives the filter.
- JavaScript strings are UTF-16 code units, while Dafny's `char` is a Unicode scalar value. Surrogate pairs are not distinguished.
- A `complete` event that arrives before its tab's listener is registered is not modelled: such a tab would never be counted down.
