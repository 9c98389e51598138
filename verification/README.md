# Video Download Assistant — a Dafny model of its core

The Video Download Assistant is a browser extension with a local download server.

- The extension's content script reads the page the user is on. It builds a record with:
  - the address;
  - a cleaned title;
  - a thumbnail;
  - a timestamp;
  - the domain;
  - for the anime site `ogladajanime.pl`, a list of mirror links.
- The script keeps that record fresh as a single-page application changes its address. It hands the record to the popup on request.
- The popup and the download dialog do several things:
  - they show the record and the server's status line;
  - they decide which buttons to show;
  - they keep the format and quality choices consistent;
  - they store and load the settings;
  - they post a download request to the server.
- The server checks and completes that request, assigns it a job id and queues it for yt-dlp.

This project models those pieces as pure Dafny functions and proves what they promise.

| file | module | what it models |
|---|---|---|
| `wrappers.dfy` | `Wrappers` | `Option` and `Result` |
| `text.dfy` | `Text` | `trim` (ECMAScript white space), Rust `char::is_whitespace`, `startsWith`, `includes`, `indexOf`, first-occurrence `replace`, `split` on a character class, ASCII lower-casing |
| `dom.dfy` | `Dom` | a document as elements in document order; `querySelector`, `querySelectorAll`, `closest` over selector lists |
| `url.dfy` | `Url` | `getDomainFromUrl`, with the URL parser as a parameter |
| `title.dfy` | `TitleCleaning` | the title normalisation and the 100-character clamp |
| `chains.dfy` | `Chains` | the generic title and thumbnail selector chains |
| `episodes.dfy` | `Episodes` | mirror-link discovery: containers (Phase A), anchors to known hosts (Phase B), deduplication by address |
| `extractor.dfy` | `Extractor` | `extractVideoInfo`: the site override, the chains, the cleaning, the record |
| `watcher.dfy` | `Watcher` | the script's life cycle: first extraction, mutation watcher with delayed re-extraction, message listener |
| `serverstatus.dfy` | `ServerStatus` | the translation lookups and the two `getServerInfoText` formatters |
| `popup.dfy` | `Popup` | YouTube host test, quality labels, button visibility, format/quality coupling, the popup's fallback record |
| `dialog.dfy` | `Dialog` | settings load/save, the video card, the download window and the download request |
| `api.dfy` | `Api` | the v1 and v2 download handlers (validation, defaults, job ids, queue, response) and the premium check |

The browser and the server's environment become parameters:

- the URL parser (`new URL`) is a function `string -> Option<UrlParts>`;
- `parseInt` is a function `string -> Option<int>`;
- the clock is an `int` argument;
- the document is a value;
- the outcome of `create_dir_all` and of the job channel is an `Env` record, along with the worker's reply;
- the yt-dlp process is a function from its arguments to an outcome.
- the watcher's life cycle is stated for any extraction function; `Watcher.ScriptExtraction` is the content script's own `extractVideoInfo`.

## Model

| member | source | states |
|---|---|---|
| Text.Trim | plugin/content.js:82 | the result is empty exactly when the input is all white space; otherwise it neither starts nor ends with white space |
| Text.TrimIsSlice | plugin/content.js:82 | the trimmed string is a contiguous slice of the input with only white space cut on either side |
| Text.TrimIdempotent | plugin/content.js:82 | trimming an already trimmed string changes nothing |
| Text.IndexOf | plugin/content.js:35 | `indexOf`: the first position where the pattern occurs, and no occurrence at all when there is none |
| Text.ReplaceFirst | plugin/content.js:231 | a string without any occurrence of the pattern is returned unchanged |
| Text.ReplaceFirstAt | plugin/content.js:231 | when the pattern first occurs at `i`, that occurrence and only that one is replaced; everything before and after it is kept |
| Text.LastSegment | plugin/popup.js:166 | the text after the last separator: a separator-free suffix preceded by a separator, or the whole string |
| Text.SplitLastIsLastSegment | plugin/popup.js:166 | the last piece of `split` on a character class is that suffix |
| Text.ToLowerAscii | plugin/popup.js:283 | lower-casing keeps the length and maps every character |
| Dom.QuerySelector | plugin/content.js:74 | no result exactly when no element in scope matches any selector; a result is a matching element of the document |
| Dom.QuerySelectorAll | plugin/content.js:156-163 | the result holds exactly the matching elements of the document |
| Dom.Closest | plugin/content.js:230 | the element itself when it matches, otherwise a matching ancestor, if any |
| Dom.QuerySelectorIsFirst | plugin/content.js:37 | `querySelector` gives the first selected element in document order: the element at the first selected index, and every result sits at such an index |
| Dom.SelectedIndices | plugin/content.js:156-163 | the indices of the selected elements from a position on: each selected, strictly increasing, and none left out |
| Dom.QuerySelectorAllInOrder | plugin/content.js:156-163 | the `k`-th element of `querySelectorAll` is the element at the `k`-th selected index: document order, each element once |
| Dom.NearestMatchingIsNearest | plugin/content.js:230 | nothing exactly when no listed ancestor exists and matches; otherwise the first listed ancestor that does |
| Dom.ClosestIsNearest | plugin/content.js:230 | nothing exactly when neither the element nor any ancestor matches; otherwise, when the element does not match, the nearest matching ancestor |
| Url.DomainFromUrl | plugin/content.js:140-148 | "unknown" for an unparsable address; otherwise the hostname with one leading "www." removed |
| Url.DomainStripsOneWww | plugin/popup.js:216-224 | a hostname "www.x" gives exactly "x" |
| TitleCleaning.PublishTitle | plugin/content.js:115-126 | never empty; at most 100 characters plus the ellipsis; "Unknown Title" when cleaning leaves nothing; the cleaned text when it fits; otherwise its first 100 characters plus "..." |
| TitleCleaning.CleanIsNormalised | plugin/content.js:117-118 | cleaning leaves single spaces only, with no white space at either end; blank input cleans to empty |
| TitleCleaning.BlankTitleIsUnknown | plugin/content.js:116-126 | a blank title is published as "Unknown Title" |
| TitleCleaning.CleanKeepsNormalised | plugin/content.js:117-118 | cleaning is the identity on normalised text that neither starts nor ends with a dash |
| TitleCleaning.CleanPadded | plugin/content.js:117-118 | white-space padding around normalised text is removed and nothing else is |
| TitleCleaning.OgTitleScenario | plugin/content.js:82-83 | "  My Video - Site  " becomes "My Video - Site": an inner " - " separator is kept |
| TitleCleaning.OnlyOneLeadingDashStripped | plugin/content.js:117 | only one leading dash separator is removed per cleaning, so cleaning is not idempotent |
| TitleCleaning.CleanKeepsContent | plugin/content.js:117-118 | without dashes at the ends, cleaning changes only white space |
| TitleCleaning.Collapse | plugin/content.js:118 | collapsing leaves single spaces, keeps emptiness and keeps whether the text starts with white space |
| TitleCleaning.CollapseKeepsContent | plugin/content.js:118 | collapsing keeps every non-space character in order |
| Chains.FindEach | plugin/content.js:73-74 | one `querySelector` per selector, in order |
| Chains.FirstTitleHit | plugin/content.js:73-84 | the first selector whose element has a non-blank title value; none before it has one |
| Chains.TitleChain | plugin/content.js:61-87 | the trimmed value of the first hit |
| Chains.TitleChainStopsAtHit | plugin/content.js:81-84 | selectors after the first hit are never consulted |
| Chains.TitleChainHitIsTrimmed | plugin/content.js:82 | a hit yields a non-empty, already trimmed title |
| Chains.FirstThumbnailHit | plugin/content.js:100-112 | the first selector whose element has a non-empty image value; none before it has one |
| Chains.ThumbnailChain | plugin/content.js:90-113 | the value of the first hit; empty exactly when there is no hit |
| Chains.ThumbnailChainStopsAtHit | plugin/content.js:110 | selectors after the first hit are never consulted |
| Episodes.ContainerDecision | plugin/content.js:167-205 | the container throws exactly when it has no description and its link text is non-empty and differs from the address; it is kept exactly when the link has an address; a kept entry has that address, the author text or "Unknown Author", and as description the trimmed description text when that is non-empty, else "Link do odcinka" (the link-text branch throws before it can assign) |
| Episodes.ContainerLinkFromQueries | plugin/content.js:167-205 | a kept entry's address is the non-empty `href` of a link element inside the container; with no link element the container is skipped; with a non-blank description element it never throws |
| Episodes.ContainerOutcomes | plugin/content.js:167 | one decision per container, in order |
| Episodes.PhaseA | plugin/content.js:167-206 | succeeds exactly when no container throws; it keeps only entries some container produced |
| Episodes.PhaseAOne | plugin/content.js:167-206 | one container on its own gives its fault, its entry, or nothing |
| Episodes.PhaseAAppend | plugin/content.js:167-206 | Phase A over two runs of containers is the first run's fault, else the second's, else the first run's entries followed by the second's: the entries keep container order |
| Episodes.PhaseAKeepsEveryLink | plugin/content.js:199-204 | every entry a container produced is kept, and Phase A keeps nothing exactly when every container was skipped |
| Episodes.PhaseAKeepsAddressed | plugin/content.js:199-204 | every kept entry has an address and a description |
| Episodes.PhaseBAuthor | plugin/content.js:230-234 | never empty; "Unknown" without a container; otherwise the container text with the address and then the anchor text removed once each, trimmed, or "Unknown Author" when that is empty |
| Episodes.PhaseBAuthorOfParts | plugin/content.js:231-234 | for a container text `pre + url + mid + text + post`, with the first occurrences where shown, the author is `pre + mid + post` trimmed, or "Unknown Author" when that is blank |
| Episodes.AnchorLink | plugin/content.js:227-238 | the entry carries the anchor's address; its description is the trimmed anchor text or "Link do odcinka" when that is empty; its author is what the nearest enclosing container gives after removing the address and the text |
| Episodes.PhaseB | plugin/content.js:227-238 | exactly one entry per anchor, in anchor order, each carrying its anchor's address |
| Episodes.PhaseBInDocumentOrder | plugin/content.js:212-238 | the `k`-th Phase B entry is recorded from the `k`-th matching anchor in document order |
| Episodes.FirstWithUrl | plugin/content.js:245 | the first entry with a given address, or none when no entry has it |
| Episodes.FirstWithUrlIsFirst | plugin/content.js:244-248 | the entry found is the one at the first index with the address: an entry with no earlier entry of its address is found, and every result is such an entry |
| Episodes.DedupLoop | plugin/content.js:241-249 | the loop computes the deduplicated list: distinct addresses, a subsequence of the input |
| Episodes.DedupProperties | plugin/content.js:241-249 | distinct addresses; order kept; each kept entry is the first entry with its address; every address present keeps its first entry |
| Episodes.Combine | plugin/content.js:211-254 | a Phase A fault aborts; otherwise Phase B is used exactly when Phase A kept nothing, and the result has distinct addresses, is a subsequence of the chosen list, and holds exactly the first entry of each address in it |
| Episodes.EpisodeLinksSources | plugin/content.js:150-255 | the result is a fault exactly when some container throws; otherwise its addresses are distinct and it holds every address a container found; when no container found one it holds every matching anchor's address instead; when some did, it is drawn from Phase A's entries in container order |
| Episodes.PhaseBEntriesComeFromAnchors | plugin/content.js:212-238 | every Phase B entry is recorded from an anchor to one of the listed hosts |
| Extractor.RawTitle | plugin/content.js:35-87 | on the override site a non-empty heading title wins; otherwise the generic chain decides |
| Extractor.Thumbnail | plugin/content.js:43-113 | on the override site the post image or the video poster wins; otherwise the generic chain decides |
| Extractor.OverrideTitleFromHeading | plugin/content.js:37-40 | the override title is the trimmed text of the first `h1.entry-title` in document order, or empty when there is none |
| Extractor.OverrideThumbnailFromImages | plugin/content.js:43-54 | the override thumbnail is the `src` of the first `.post-thumbnail img` when non-empty; otherwise the `poster` of the first video, or empty without a video |
| Extractor.ExtractVideoInfo | plugin/content.js:28-131 | fails exactly when the address mentions the override site and link discovery throws; the record carries the address, the time, the domain and the thumbnail; its title is the published form of the raw title; its links are those of link discovery on the override site and none elsewhere |
| Extractor.NothingFoundRecord | plugin/content.js:124-131 | a page where nothing is found gives "Unknown Title", no thumbnail and no links |
| Extractor.OverrideOnAnyMention | plugin/content.js:35 | the override applies whenever the site's name occurs anywhere in the address |
| Extractor.PaddedSeparatorTitle | plugin/content.js:61-122 | a generic title "  My Video - Site  " is published as "My Video - Site" |
| Watcher.Boot | plugin/content.js:9-11 | for any extraction: the script is dead (no observer, no listener) exactly when the first extraction throws; otherwise it holds that record and the page address |
| Watcher.ScriptBoot | plugin/content.js:9-11 | with the script's own extraction, the script dies at load exactly when the address mentions the override site and link discovery throws; otherwise its record carries the page address, the load time and links with distinct addresses |
| Watcher.Step | plugin/content.js:14-19 | for any extraction, a mutation schedules one run exactly when the address changed, and records the new address; a firing run replaces the record only when its extraction succeeds |
| Watcher.Run | plugin/content.js:14-19 | a run of events keeps the script dead or alive; it schedules at most one extraction per event; mutations alone never change the record |
| Watcher.Respond | plugin/content.js:266-269 | an answer exactly for the query action on a live script, and it is the stored record |
| Watcher.DeadStaysDead | plugin/content.js:263-266 | a script whose first extraction threw never answers, whatever happens later |
| Watcher.MutationsSchedulePerChange | plugin/content.js:15-19 | a burst of mutations schedules one run per address change, with no coalescing, and keeps the record |
| Watcher.TwoChangesTwoRuns | plugin/content.js:16-18 | two successive changes schedule two runs |
| Watcher.RunAppend | plugin/content.js:15-19 | running events in two parts is running them in one go |
| Watcher.AnswerWasExtracted | plugin/content.js:258-268 | every answer is a record that some extraction produced |
| Watcher.LatestRunAnswers | plugin/content.js:18 | after a run fires with a successful extraction, the query is answered with exactly that record |
| ServerStatus.Translate | plugin/popup.js:46-48 | the message when present and non-empty, otherwise the key; never empty for a non-empty key |
| ServerStatus.Message | plugin/dialog.js:237 | the message when present and non-empty, otherwise the fallback |
| ServerStatus.FolderName | plugin/popup.js:165-166 | "Downloads" for a path that is empty or ends in a separator; otherwise the non-empty, separator-free tail after the last separator |
| ServerStatus.StripOneV | plugin/popup.js:157-159 | exactly one leading "v" is removed |
| ServerStatus.PopupServerInfoText | plugin/popup.js:147-171 | starts with the label; is only the label exactly when there is neither version nor folder; continues with a bar, "v" and the version without its own "v"; ends with a bar and the folder name |
| ServerStatus.DialogServerInfoText | plugin/dialog.js:235-255 | the same, but the version is written as it is |
| ServerStatus.UntranslatedLabels | plugin/popup.js:149 | untranslated, the popup shows "connected" (its fallback to 'Connected' never applies) while the dialog shows "Connected" |
| ServerStatus.TranslatedLabelsAgree | plugin/dialog.js:237 | with a translation both pages use it; the popup's label is never empty |
| ServerStatus.FolderNameIsLastSplitPiece | plugin/dialog.js:250 | the folder name is the last `split` piece, or "Downloads" when that is empty |
| ServerStatus.FolderNameOfJoinedPath | plugin/dialog.js:249-250 | "dir/name" and "dir\name" both show "name" |
| ServerStatus.TrailingSeparatorShowsDefault | plugin/popup.js:166 | a path ending in a separator shows "Downloads" |
| ServerStatus.PopupVersionPrefixIgnored | plugin/popup.js:155-161 | versions "v1.2" and "1.2" render the same in the popup |
| ServerStatus.DialogDoublesVersionPrefix | plugin/dialog.js:243-245 | the dialog renders version "v1.2" as "vv1.2" |
| ServerStatus.FormattersAgreeWithoutPrefix | plugin/dialog.js:235-255 | with a translated label and a version without "v", both pages show the same text |
| Popup.SomeDomainMatches | plugin/popup.js:285 | `some` over the list holds exactly when one listed domain is the host or a parent of it |
| Popup.IsYouTubeDomain | plugin/popup.js:281-287 | false for an unparsable address; otherwise true exactly when the lower-cased host equals a listed domain or ends with "." and one |
| Popup.UnderListedDomainIsYouTube | plugin/popup.js:285 | a host under any listed domain is accepted |
| Popup.LowerKeepsLowerSuffix | plugin/popup.js:283 | lower-casing keeps a suffix that has no upper-case letters |
| Popup.LowerHostUnderYouTube | plugin/popup.js:284-285 | a host ending in ".youtube.com" lies under "youtube.com" |
| Popup.SubdomainIsYouTube | plugin/popup.js:281-287 | any subdomain of youtube.com, in any letter case, is accepted |
| Popup.LookalikeIsNotUnder | plugin/popup.js:285 | a host that merely ends with a domain's text without a dot before it is not under it |
| Popup.QualityText | plugin/popup.js:289-298 | the label of a known quality value, otherwise the value itself |
| Popup.QualityTextIdempotent | plugin/popup.js:289-298 | labelling twice is labelling once; the label is empty exactly when the value is |
| Popup.QualityLabelsDistinct | plugin/popup.js:290-296 | different known values have different labels |
| Popup.ButtonVisibility | plugin/popup.js:251-279 | download shown exactly when there is no record or its domain does not contain the site's name; links shown exactly when it does and there are links; never both |
| Popup.AddressMentionHidesLinks | plugin/popup.js:259 | a page whose address mentions the site only outside its host gets links extracted but the popup shows the download button and not the links |
| Popup.OnFormatChange | plugin/popup.js:101-103 | the format is set; choosing "mp3" forces "bestaudio", any other format keeps the quality |
| Popup.OnQualityChange | plugin/popup.js:105-108 | the quality is set; choosing "bestaudio" forces "mp3", any other quality keeps the format |
| Popup.HandlersCoupleTheirOwnChange | plugin/popup.js:101-108 | a handler that lands on the audio choice lands on "mp3" with "bestaudio" |
| Popup.LeavingMp3KeepsAudioQuality | plugin/popup.js:101-103 | switching from mp3 to mp4 leaves "bestaudio" selected |
| Popup.LastAudioPickCouples | plugin/popup.js:101-108 | whatever came before, a last pick of "mp3" or "bestaudio" ends on "mp3" with "bestaudio" |
| Popup.FallbackRecord | plugin/popup.js:200-207 | the tab's address, its title or "Unknown", no thumbnail, no links, the tab's domain |
| Popup.RefreshVideoInfo | plugin/popup.js:196-214 | no receiver keeps the old record; an answer is taken as it is; an empty answer gives the fallback record |
| Popup.AskContentScript | plugin/popup.js:199 | no receiver exactly when the script is dead; otherwise the listener's answer |
| Popup.FallbackNeverShowsLinks | plugin/popup.js:200-207 | the fallback record never shows the links button |
| Popup.PopupHoldsStoredRecord | plugin/popup.js:199-200 | a live script's stored record is what the popup holds; a dead script leaves the popup's record as it was |
| Dialog.LoadSettings | plugin/dialog.js:361-369 | each setting is its stored value when that is truthy, otherwise its default (en, 127.0.0.1, 8080, Downloads); all four are truthy |
| Dialog.SavedPort | plugin/dialog.js:291 | the parsed port when it parses to a non-zero number, otherwise 8080; never 0 |
| Dialog.SaveSettings | plugin/dialog.js:289-292 | the language is taken as it is, the folder falls back to "Downloads", the address is left alone |
| Dialog.Persist | plugin/dialog.js:294 | the four settings are written under their own names; every other stored key keeps its value |
| Dialog.SaveThenLoad | plugin/dialog.js:289-294 | after saving and reloading, port, folder and language come back as saved (an empty language as "en") and the address as it was loaded |
| Dialog.WrittenAddressIsNeverRead | plugin/dialog.js:85-88 | the address is saved under "serverIp" but read from "serveripinput", so what is saved there never affects loading |
| Dialog.LoadedSettingsReloadUnchanged | plugin/dialog.js:361-369 | storing the loaded settings under the keys that are read reloads them unchanged |
| Dialog.ShowInfo | plugin/dialog.js:165-174 | the title or "Unknown Title"; the thumbnail is shown exactly when there is one; the previous image stays when there is none |
| Dialog.FaviconFor | plugin/dialog.js:177-190 | no address leaves the favicon; an unparsable one hides it; otherwise it is "protocol//host/favicon.ico" |
| Dialog.UpdateCard | plugin/dialog.js:159-191 | no record changes nothing; a record becomes current and is shown, with its favicon |
| Dialog.UpdateCardIdempotent | plugin/dialog.js:159-191 | showing the same record twice is showing it once |
| Dialog.ExtractedTitleShownAsIs | plugin/dialog.js:165 | a title from the content script is never empty, so it is shown unchanged |
| Dialog.UpdateDialogView | plugin/dialog.js:405-418 | no record changes nothing; otherwise the record is shown as on the card |
| Dialog.QualityGroupVisible | plugin/dialog.js:420-426 | the quality group is shown exactly for the video download type |
| Dialog.OpenDownloadWindow | plugin/dialog.js:193-206 | the window opens exactly when there is a current record, and it carries that record |
| Dialog.StartDownload | plugin/dialog.js:428-453 | nothing is posted without a record or without a checked download type; otherwise the request goes to the configured address and port, carrying the record's address and title, the folder setting and the four form choices |
| Dialog.WindowPostsCardRecord | plugin/dialog.js:193-206 | the download started from the window posts the card's address and title |
| Dialog.HiddenQualityStillSent | plugin/dialog.js:420-453 | the video quality is sent even when its group is hidden |
| Dialog.UncheckedTypePostsNothing | plugin/dialog.js:437-439 | with no download type checked nothing is posted, even though a record is there |
| Api.Push | src/api_handler.rs:162 | an absolute subfolder replaces the base; a relative one follows the base after exactly one "/" unless the base is empty or already ends in one |
| Api.Separator | src/api_handler.rs:162 | nothing is inserted exactly when the base is empty or ends in "/"; otherwise a single "/" |
| Api.PushStaysInside | src/api_handler.rs:162 | a relative path pushed onto a base lies inside the base component by component and ends with the pushed path |
| Api.StatusOr500 | src/api_handler.rs:253 | a valid status code is kept; anything else becomes 500 |
| Api.NextId | src/api_handler.rs:182-185 | the next id is the counter plus one, wrapping to 0 past 2^64 - 1 |
| Api.HandleV1 | src/api_handler.rs:124-276 | a blank URL gives 400 and a folder error gives 500, both with nothing changed; otherwise the counter advances and the defaulted item is queued; once sent, the earlier jobs are kept and exactly one job is added, carrying the new id, the URL, the defaulted quality and format, the target folder, the title and the credentials; a send failure or a closed reply channel gives 500; a failed job answers with its own valid status or 500 and its message; success exactly when the job was sent and the worker succeeded, and only then is the id returned |
| Api.V2Rejection | src/api_handler.rs:286-336 | 400 exactly for a blank URL or a refused subfolder, with "URL jest wymagany" or "Nieprawidłowa nazwa podfolderu" as the error; 500 for a folder error, whose error names the cause and the quoted target path; never a success, a message, an output path or an id |
| Api.HandleV2 | src/api_handler.rs:280-403 | rejected requests change nothing; an accepted one advances the counter and queues the item with "Unknown Title" for a missing title; once the job is sent, "Dodano do kolejki" comes back with the new id without waiting for the worker |
| Api.CountPassing | src/api_handler.rs:286-343 | the number of requests that get past every check before an id is taken: at most the run's length, zero exactly when none passes, the full length exactly when all do |
| Api.PremiumArgs | src/api_handler.rs:72-82 | nine arguments, with the user name and the password in the second and fourth places |
| Api.VerifyPremium | src/api_handler.rs:45-121 | 400 exactly when a credential is missing or empty; 500 exactly when yt-dlp cannot be started; 200 whenever it ran, whatever its exit; success exactly when both credentials are given and yt-dlp exits successfully; the premium status is never known |
| Api.VerifyPremiumShape | src/api_handler.rs:45-121 | a success carries a message and no error, a failure an error and no message; the status is 200, 400 or 500; missing credentials are refused whatever yt-dlp would do, and otherwise only the outcome of the one run decides |
| Api.RejectionsChangeNothing | src/api_handler.rs:130-180 | a rejected request leaves the counter, the queue and the jobs unchanged |
| Api.ServeV2Counts | src/api_handler.rs:340-373 | after a run of requests the counter has advanced by the number accepted, modulo 2^64; the queue is extended by one item per accepted request, with consecutive ids |
| Api.ModAdd | src/api_handler.rs:185 | adding after wrapping is wrapping after adding |
| Api.ModDistinct | src/api_handler.rs:185 | ids fewer than 2^64 steps apart differ |
| Api.QueuedIdsDistinct | src/api_handler.rs:340-343 | fewer than 2^64 accepted requests never share an id |
| Api.V2TargetStaysInside | src/api_handler.rs:304-322 | an accepted subfolder is relative and has no ".."; the target lies inside the download folder component by component, and what follows the folder is the separator and the subfolder |
| Api.PrefixIsNotInside | src/api_handler.rs:304-322 | "/dlx/a" starts with "/dl" but is not inside it, while "/dl" with "a" pushed is |
| Api.V1AbsoluteSubfolderEscapes | src/api_handler.rs:160-164 | v1 accepts subfolder "/etc" and downloads into "/etc" |
| Api.V2RefusesAbsoluteSubfolder | src/api_handler.rs:308-318 | v2 refuses subfolder "/etc" with 400 and changes nothing |
| Api.ParentDirComponents | src/api_handler.rs:309 | "x/../y" has a parent-directory component; "a..b" does not |
| Api.SplitPieceAfter | src/api_handler.rs:309 | the piece between the first and the second "/" is the second component |
| Api.SplitHead | src/api_handler.rs:309 | the text before the first "/" is the first component |
| Api.BlankUrlButBlankNameAccepted | src/api_handler.rs:46-59 | a URL of spaces is refused, but a user name of spaces passes the credential check |
| Api.TitlesInQueue | src/api_handler.rs:355-363 | v2 queues "Unknown Title" for a missing title while v1 queues no title |
| Api.FailedJobStatus | src/api_handler.rs:251-260 | a failed job answers with its own status when that is valid, else 500, and without an id |

## Left out

- Browser APIs are not modelled beyond their results: `chrome.tabs`, `chrome.runtime.sendMessage` (the record published at content.js lines 134-137), `chrome.storage`, `chrome.windows.create`, `fetch`. Their results enter as arguments.
- Real time is not modelled. The 1-second delay of the watcher is a pending run that fires later.
- The CSS selector engine is not modelled. Each element carries the set of selectors it matches.
- URL parsing and `parseInt` are not modelled; both are parameters.
- JavaScript strings are modelled as sequences of characters, not UTF-16 code units. Length, clamping and `substring` therefore count characters.
- Elements store their property values as strings. A missing `content`, `src` or `poster` is the empty string.
- Non-string JSON values in the server's status reply are not modelled.
- Watcher.Step: the watcher runs are counted but are not tied to the address seen when they were scheduled. A firing run extracts from whatever page it is given.
- Rendering is not modelled: `displayVideoInfo`, `showEpisodeLinks`/`showEpisodeLinksPopup`, `updateUIText`, and the dialog's spinner and status text.
- The favicon's `onerror` handler is not modelled, because it depends on loading the image.
- Translation loading and fetching the server status are not modelled. The same goes for the yt-dlp checks (`checkYtDlpStatus`) and the building of fetch URLs from the address and the port. These are all network effects. Only the pure formatting of their results is modelled.
- Passing the record to the dialog window by URL encoding is not modelled (dialog.js line 197 and the reading side). `encodeURIComponent` and JSON are not modelled; the record is passed as it is.
- Dialog.OpenDownloadWindow: the new window decodes the record twice (dialog.js lines 318-322): `URLSearchParams.get` decodes once and `decodeURIComponent` again. The model's record arrives unchanged, which holds only when the record's JSON contains no "%". A title such as "100% Anime" makes the second decoding throw, so the window's `init` fails and it never shows the record; an address holding "%C5%9B" arrives as "ś".
- Dialog.WindowPostsCardRecord: for the same reason, the window posts the card's address and title only when the record's JSON contains no "%"; otherwise it posts nothing (the decoding threw) or posts the address and title with their percent escapes decoded.
- Translations are a map from key to message. Keys that collide with JavaScript prototype properties are not modelled.
- The server's file system, channel and logging are not modelled: `create_dir_all`, the job channel, `save_queue_to_file`, `QUEUE_LEN` and the log lines. Their outcomes are inputs.
- The other handlers (`status`, `queue`, `progress`) are not modelled.
- src/models.rs is not part of this model. The request and response types are reconstructed from their use in the handlers.
- Paths use Unix semantics: a path is absolute when it starts with "/", and a parent-directory component is a ".." piece between slashes. Windows prefixes are not modelled.
- Api.V2Rejection: the folder error message writes the target path between quotes and does not reproduce the escaping Rust's `{:?}` applies to special characters.
- Api.HandleV1: the response after a successful or failed job copies the worker's message, error and output path. The contract states the message of a failed job but not the error and output path, nor the message of a successful one.
- Requests are handled one at a time. The server runs handlers concurrently, and both handlers share the counter and the queue; taking an id with `fetch_add` (src/api_handler.rs lines 340-343) and pushing onto the locked queue (lines 369-373) are separate steps, so under concurrency the queue order need not follow the id order. Api.ServeV2Counts and Api.QueuedIdsDistinct describe sequential runs only; ids stay distinct under concurrency too, because `fetch_add` is atomic, but that is not proved here.
- Text.ToLowerAscii: only "A"-"Z" are lower-cased, whereas `toLowerCase` also maps non-ASCII letters. The host names it is applied to come from the URL parser, which gives ASCII (non-ASCII labels arrive in punycode).
- Api.VerifyPremium: the messages of the yt-dlp outcomes are not stated.

Where the code and the documented behaviour differ, the model follows the code:

- The site override is triggered by the site's name anywhere in the address, not by the hostname. The popup, in contrast, tests the domain.
- A title such as "My Video - Site" keeps its inner " - ". Only one leading and one trailing dash separator is removed.
- Address changes are not coalesced: every change schedules its own re-extraction.
- Deduplication compares addresses as exact strings.
- A container with no description whose link text differs from its address assigns to a `const` (content.js line 195). That throws, so the whole extraction fails, and the model says so.
- Phase B's author is "Unknown" when the anchor has no enclosing container.
- A thumbnail value made only of white space counts as found.
- The popup's `|| 'Connected'` fallback never applies.
- The v1 handler does not check the subfolder: an absolute one replaces the download folder.
- The dialog saves the address under "serverIp" but reads it from "serveripinput".
