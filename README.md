# Video preview: playlist, next track, sidecar tracks, player language

A model of the decisions taken by the video preview panel of the alist web
front end (`src/pages/home/previews/video.tsx`). The panel mounts a third-party
media player; the logic of its own is small and is modelled here as pure
functions over immutable snapshots of the listing store:

- the **playlist**: the VIDEO entries of the current listing, in listing
  order, or the open object alone when the listing holds no VIDEO entry;
- the **"video ended" handler**: look up the open object's name in the
  playlist with `findIndex` and request navigation to the entry after it;
- the **sidecar tracks**: the first related file ending (case-sensitively) in
  `.srt`, `.ass` or `.vtt` is the subtitle, the first ending in `.xml` the
  danmaku (overlay comment) track;
- the **player language**: the lower-cased locale if it is one of `en`,
  `zh-cn`, `zh-tw`, otherwise `en`;
- the **selector options**: the playlist names in playlist order;
- the fixed table of six **external players**.

Store reads (`objStore.obj`, `objStore.objs`, `objStore.related`,
`currentLang()`) become arguments, gathered in `VideoPreview.Snapshot`; the
router call `replace(name)` becomes a returned `Option<string>` navigation
request. JavaScript's `Array.prototype.find` and `findIndex` are modelled once,
generically, in module `ArrayFind`. The only loop of the core, the early-return
`for` loop over the extension list inside each `find` predicate, is the method
`Sidecar.MatchesExtension`, proved equal to the predicate `HasExtension` that
the functions use.

Modules: `Wrappers` (Option), `Media` (listed objects), `ArrayFind`,
`Playlist`, `Sidecar`, `PlayerLang`, `VideoPreview` (the component put
together).

When no playlist entry has the open object's name, `findIndex` gives -1.
That is below `length - 1` for any non-empty playlist, so the handler asks
for the FIRST entry instead of doing nothing
(`Playlist.EndedWhenAbsentNavigatesToFirst`). This happens when the listing
has videos and none of them has the open object's name
(`Playlist.OpenVideoIsInPlaylist` shows it cannot happen when the open
object is itself a listed video). Names
are not assumed unique: with duplicates, the first occurrence decides which
entry comes next, whichever copy is open (`Playlist.EndedUsesFirstOccurrence`).

## Model

| member | source | states |
|---|---|---|
| ArrayFind.FindIndex | src/pages/home/previews/video.tsx:149 | findIndex yields -1 exactly when no element satisfies the predicate, otherwise the lowest satisfying position |
| ArrayFind.Find | src/pages/home/previews/video.tsx:103-118 | find yields nothing exactly when no element satisfies the predicate, otherwise an element that satisfies it, the one at the first satisfying position |
| ArrayFind.FindAppend | src/pages/home/previews/video.tsx:103-118 | find over a concatenation: a match in the front part wins, otherwise the back part decides |
| Playlist.VideosOf | src/pages/home/previews/video.tsx:31 | the filter result is a subsequence of the listing (order kept), holds only VIDEO entries, and holds every VIDEO entry as often as the listing does |
| Playlist.VideosOfEmpty | src/pages/home/previews/video.tsx:31-32 | the filter is empty if and only if the listing has no VIDEO entry |
| Playlist.VideosOfUnique | src/pages/home/previews/video.tsx:31 | any order-keeping subsequence of only VIDEO entries that keeps every VIDEO entry equals the filter result |
| Playlist.Playlist | src/pages/home/previews/video.tsx:31-34 | the playlist is never empty; with VIDEO entries it is exactly those entries in listing order; without, it is the open object alone |
| Playlist.PlaylistIsVideoFilter | src/pages/home/previews/video.tsx:31-34 | the playlist of a listing with videos is the unique sequence with the filter's three properties |
| Playlist.OpenVideoIsInPlaylist | src/pages/home/previews/video.tsx:31 | an open object that is a VIDEO entry of the listing is in the playlist |
| Playlist.OnEnded | src/pages/home/previews/video.tsx:148-152 | if the name is first found at i, the request is entry i+1 when i is not last and nothing when it is last; if the name is absent, the request is the first entry (none for an empty list) |
| Playlist.EndedStepsThroughPlaylist | src/pages/home/previews/video.tsx:149-152 | with distinct names, ending entry i requests entry i+1, and ending the last entry requests nothing |
| Playlist.EndedUsesFirstOccurrence | src/pages/home/previews/video.tsx:149-151 | when a name occurs first at i and again at j > i, ending the copy at j requests the entry after i, not the one after j |
| Playlist.FallbackNeverNavigates | src/pages/home/previews/video.tsx:32-34 | with no VIDEO entry the playlist is the open object alone and ending it requests no navigation |
| Playlist.EndedWhenAbsentNavigatesToFirst | src/pages/home/previews/video.tsx:149-151 | when no playlist entry has the open object's name, the listing has videos and the request is the first playlist entry |
| Playlist.EndedTargetIsListedVideo | src/pages/home/previews/video.tsx:31-34 | when the listing has videos, every navigation request names a VIDEO entry of the listing |
| Playlist.SelectorOptions | src/pages/home/previews/video.tsx:166 | the options are the playlist names, one per entry, in playlist order |
| Playlist.EndedTargetIsOption | src/pages/home/previews/video.tsx:151 | every navigation request of the ended handler names an option of the selector |
| Playlist.EndedExamples | src/pages/home/previews/video.tsx:148-152 | a listing with videos a, c and a non-video b: the playlist is [a, c], ending a requests c, ending c requests nothing |
| Sidecar.EndsWith | src/pages/home/previews/video.tsx:105 | `endsWith`: the case-sensitive suffix test, true exactly when the name is some front part followed by the suffix |
| Sidecar.MatchesExtension | src/pages/home/previews/video.tsx:104-109 | the loop over the extensions answers true exactly when the name ends with one of them |
| Sidecar.FirstWithExtension | src/pages/home/previews/video.tsx:103-118 | nothing exactly when no related name has one of the extensions, otherwise the first related file whose name has one |
| Sidecar.Subtitle | src/pages/home/previews/video.tsx:103-110 | the subtitle is absent exactly when no related name ends in .srt, .ass or .vtt, otherwise it is the first such file |
| Sidecar.Danmu | src/pages/home/previews/video.tsx:111-118 | the danmaku track is absent exactly when no related name ends in .xml, otherwise it is the first such file |
| Sidecar.ExtensionsAreDisjoint | src/pages/home/previews/video.tsx:104-112 | no name ends both with a subtitle extension and with .xml |
| Sidecar.SidecarNamesDiffer | src/pages/home/previews/video.tsx:103-118 | when both tracks are found they are files of different names |
| Sidecar.IgnoresNonMatching | src/pages/home/previews/video.tsx:103-118 | inserting a file without the extensions anywhere in the related list does not change the choice |
| Sidecar.DanmuIgnoresSubtitleFiles | src/pages/home/previews/video.tsx:111-118 | the danmaku choice does not depend on the subtitle files present |
| Sidecar.SubtitleIgnoresDanmuFiles | src/pages/home/previews/video.tsx:103-110 | the subtitle choice does not depend on the danmaku files present |
| Sidecar.FirstMatchExample | src/pages/home/previews/video.tsx:103-118 | a.srt, b.ass, c.xml gives subtitle a.srt and danmaku c.xml |
| Sidecar.NoMatchExample | src/pages/home/previews/video.tsx:103-118 | notes.txt gives neither track |
| Sidecar.CaseSensitiveExample | src/pages/home/previews/video.tsx:105 | movie.SRT is not a subtitle: suffixes compare case-sensitively |
| PlayerLang.LowerChar | src/pages/home/previews/video.tsx:94-95 | the ASCII A-Z part of `toLowerCase` on one character: an ASCII capital becomes the matching small letter, no ASCII capital remains, any other character is returned as it is |
| PlayerLang.ToLower | src/pages/home/previews/video.tsx:94-95 | the ASCII A-Z part of `toLowerCase` on the locale: lowers each ASCII capital by LowerChar, leaves no ASCII capital, returns any other character as it is and keeps the length |
| PlayerLang.Lang | src/pages/home/previews/video.tsx:94-96 | the language is always one of en, zh-cn, zh-tw; it is the lower-cased locale when that is one of them, en otherwise |
| PlayerLang.LangIsStable | src/pages/home/previews/video.tsx:94-96 | the choice ignores the locale's case and is unchanged when applied to its own result |
| PlayerLang.LangExamples | src/pages/home/previews/video.tsx:94-96 | FR gives en, ZH-CN gives zh-cn, zh-TW gives zh-tw, en-US gives en |
| VideoPreview.PlayersTable | src/pages/home/previews/video.tsx:15-26 | six external players with distinct names; MovistPro's scheme ends in $mdurl, the others' in $durl |
| VideoPreview.Mount | src/pages/home/previews/video.tsx:31-166 | the set-up playlist is non-empty, the options are its names, the language is supported, the open object's name is an option when it is a listed video or there is no video, and the two tracks have different names |
| VideoPreview.VideoEnded | src/pages/home/previews/video.tsx:148-152 | a request from the ended callback is always a selector option and, with videos in the listing, a listed VIDEO entry; with no video, ending the open object requests nothing |

## Left out

- Artplayer construction and its option object (url, title, volume, autoplay from the `video_autoplay` setting and the other flags, lines 36-102): pass-through configuration for a third-party library, with no decision of the component's own besides the language.
- The `customType` set-up for flv and m3u8 through flv.js and hls.js (lines 73-93): calls into foreign libraries and media I/O.
- The danmaku plugin's settings (lines 127-143) and the subtitle's `url`/`type` (lines 119-124): constants and calls to `proxyLink` and `ext`, which are defined in `~/hooks` and `~/utils`; those files are not part of this model. The model states which file is chosen, not the URL built for it.
- The deep links built with `convertURL` for the external players (lines 175-179): `convertURL` is not part of this model, so only the table itself is stated.
- Mount and clean-up (`onMount`, `player.on`, `onCleanup`, `player.destroy()`, lines 146-157): UI lifecycle and event registration; only the decision taken inside the "video:ended" callback is modelled.
- The selector's `onChange` (lines 162-164) passes the picked name to the router unchanged; there is no decision to model. Rendering, tooltips and icon paths (lines 158-192) are UI.
- `ObjType` is defined in `~/types`, which is not part of this model; only VIDEO is distinguished, every other kind is `Other`.
- PlayerLang.LowerChar: lowers only the ASCII letters A-Z; the other case mappings of `toLowerCase` (É to é, İ to i followed by U+0307) are not modelled. No character outside A-Z lowers to a character of en, zh-cn or zh-tw (the Kelvin sign lowers to k, and İ keeps U+0307), so no result of PlayerLang.Lang changes.
- PlayerLang.ToLower: built from LowerChar, so it keeps every non-ASCII character and the length, where `toLowerCase` lowers É to é and turns İ into two characters; for the reason above this changes no result of PlayerLang.Lang.
- PlayerLang.Lang: `currentLang()` is read twice in the source; the model reads one value.
- Strings are sequences of Unicode characters, where JavaScript strings are sequences of UTF-16 code units. For the ASCII extensions tested with Sidecar.EndsWith and for the ASCII language names the two give the same results; Sidecar.EndsWith is not a statement about arbitrary code-unit strings.
