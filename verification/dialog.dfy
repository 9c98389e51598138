/**
 * The decisions of the extension's dialog page (dialog.js): stored settings
 * with their defaults, saving the settings form, the video card, the
 * download-type switch, and the request `startDownload` sends. Storage,
 * fetching and the DOM are left to the platform; the functions here compute
 * what is written to them.
 */
module Dialog {
  import opened Wrappers
  import opened Text
  import opened Url
  import opened TitleCleaning
  import opened Extractor
  import opened ServerStatus

  // ---------------------------------------------------------------------------
  // Settings (lines 84-91, 289-300 and 361-369)
  // ---------------------------------------------------------------------------

  /** A value kept in extension storage: the settings are strings and numbers. */
  datatype JsVal = Str(s: string) | Num(n: int)

  /** JavaScript truthiness of a stored value: "" and 0 are falsy. */
  predicate Truthy(v: JsVal) {
    match v
    case Str(s) => s != []
    case Num(n) => n != 0
  }

  /** Extension storage: key to stored value; a missing key reads as `undefined`. */
  type Storage = map<string, JsVal>

  /** The settings object both classes of the page keep. */
  datatype Settings = Settings(language: JsVal, serverIp: JsVal, serverPort: JsVal, downloadFolder: JsVal)

  const DefaultLanguage := Str("en")
  const DefaultServerIp := Str("127.0.0.1")
  const DefaultPort := 8080

  /** The storage keys `loadSettings` reads. The address is read from
      "serveripinput", a key the page itself never writes. */
  const LanguageKey := "language"
  const ReadIpKey := "serveripinput"
  const PortKey := "serverPort"
  const FolderKey := "downloadFolder"

  /** The key `saveSettings` writes the address under: the settings object's
      own field name. */
  const WrittenIpKey := "serverIp"

  /** `stored[key] || fallback`. */
  function StoredOr(stored: Storage, key: string, fallback: JsVal): JsVal {
    if key in stored && Truthy(stored[key]) then stored[key] else fallback
  }

  /** `loadSettings`: each stored value when it is truthy, its default otherwise. */
  function LoadSettings(stored: Storage): (r: Settings)
    ensures Truthy(r.language) && Truthy(r.serverIp) && Truthy(r.serverPort) && Truthy(r.downloadFolder)
    ensures LanguageKey in stored && Truthy(stored[LanguageKey]) ==> r.language == stored[LanguageKey]
    ensures !(LanguageKey in stored && Truthy(stored[LanguageKey])) ==> r.language == DefaultLanguage
    ensures ReadIpKey in stored && Truthy(stored[ReadIpKey]) ==> r.serverIp == stored[ReadIpKey]
    ensures !(ReadIpKey in stored && Truthy(stored[ReadIpKey])) ==> r.serverIp == DefaultServerIp
    ensures PortKey in stored && Truthy(stored[PortKey]) ==> r.serverPort == stored[PortKey]
    ensures !(PortKey in stored && Truthy(stored[PortKey])) ==> r.serverPort == Num(DefaultPort)
    ensures FolderKey in stored && Truthy(stored[FolderKey]) ==> r.downloadFolder == stored[FolderKey]
    ensures !(FolderKey in stored && Truthy(stored[FolderKey])) ==> r.downloadFolder == Str(DefaultFolder)
  {
    Settings(
      StoredOr(stored, LanguageKey, DefaultLanguage),
      StoredOr(stored, ReadIpKey, DefaultServerIp),
      StoredOr(stored, PortKey, Num(DefaultPort)),
      StoredOr(stored, FolderKey, Str(DefaultFolder)))
  }

  /** The settings form: the language select and the two text inputs. */
  datatype SettingsForm = SettingsForm(language: string, port: string, folder: string)

  /** `parseInt`, with `None` for `NaN`. How digits are read is the
      platform's; the model receives it as a function. */
  type IntParser = string -> Option<int>

  /** `parseInt(input) || 8080`: `NaN` and 0 both give the default. */
  function SavedPort(input: string, parseInt: IntParser): (r: int)
    ensures r != 0
    ensures parseInt(input).Some? && parseInt(input).value != 0 ==> r == parseInt(input).value
    ensures parseInt(input).None? || parseInt(input).value == 0 ==> r == DefaultPort
  {
    match parseInt(input)
    case Some(n) => if n != 0 then n else DefaultPort
    case None => DefaultPort
  }

  /** `saveSettings` on the settings object: the language as selected, the
      port parsed, the folder defaulted; the address is not on the form. */
  function SaveSettings(s: Settings, form: SettingsForm, parseInt: IntParser): (r: Settings)
    ensures r.serverIp == s.serverIp
    ensures r.language == Str(form.language)
    ensures r.serverPort == Num(SavedPort(form.port, parseInt))
    ensures r.downloadFolder == Str(if form.folder != [] then form.folder else DefaultFolder)
  {
    Settings(Str(form.language), s.serverIp, Num(SavedPort(form.port, parseInt)), Str(OrElse(form.folder, DefaultFolder)))
  }

  /** `chrome.storage.sync.set(this.settings)`: the object's four fields are
      written under their own names; every other key keeps its value. */
  function Persist(stored: Storage, s: Settings): (r: Storage)
    ensures r.Keys == stored.Keys + {LanguageKey, WrittenIpKey, PortKey, FolderKey}
    ensures r[LanguageKey] == s.language && r[WrittenIpKey] == s.serverIp
    ensures r[PortKey] == s.serverPort && r[FolderKey] == s.downloadFolder
    ensures forall k :: k in stored && k !in {LanguageKey, WrittenIpKey, PortKey, FolderKey} ==> r[k] == stored[k]
  {
    stored[LanguageKey := s.language][WrittenIpKey := s.serverIp][PortKey := s.serverPort][FolderKey := s.downloadFolder]
  }

  // ---------------------------------------------------------------------------
  // The video card (lines 159-191 and 405-418)
  // ---------------------------------------------------------------------------

  /** The site icon: never set yet, shown from an address, or hidden. */
  datatype Favicon = FaviconUnset | FaviconShown(src: string) | FaviconHidden

  /** What the card displays. When the thumbnail is hidden its last source
      stays on the element. */
  datatype View = View(title: string, showThumbnail: bool, thumbnailSrc: string, favicon: Favicon)

  /** The page's record and its card. */
  datatype Card = Card(current: Option<VideoInfo>, view: View)

  const UnknownCardTitle := "Unknown Title"

  /** The part both `updateVideoInfo` methods share: the title or its
      fallback, and the thumbnail shown exactly when it is non-empty. */
  function ShowInfo(view: View, info: VideoInfo): (r: View)
    ensures r.title == (if info.title != [] then info.title else UnknownCardTitle)
    ensures r.showThumbnail <==> info.thumbnail != []
    ensures r.thumbnailSrc == (if info.thumbnail != [] then info.thumbnail else view.thumbnailSrc)
    ensures r.favicon == view.favicon
  {
    var titled := view.(title := OrElse(info.title, UnknownCardTitle));
    if info.thumbnail != [] then titled.(showThumbnail := true, thumbnailSrc := info.thumbnail)
    else titled.(showThumbnail := false)
  }

  /** The site icon for a record: "<protocol>//<host>/favicon.ico" when its
      address parses, hidden when it does not, unchanged without an address. */
  function FaviconFor(previous: Favicon, url: string, parse: UrlParser): (r: Favicon)
    ensures url == [] ==> r == previous
    ensures url != [] && parse(url).None? ==> r == FaviconHidden
    ensures url != [] && parse(url).Some? ==>
              r == FaviconShown(parse(url).value.protocol + "//" + parse(url).value.hostname + "/favicon.ico")
  {
    if url == [] then previous
    else match parse(url)
      case None => FaviconHidden
      case Some(p) => FaviconShown(p.protocol + "//" + p.hostname + "/favicon.ico")
  }

  /** The main view's `updateVideoInfo(info)`: no record changes nothing;
      otherwise the record is kept and the card redrawn from it. */
  function UpdateCard(c: Card, info: Option<VideoInfo>, parse: UrlParser): (r: Card)
    ensures info.None? ==> r == c
    ensures info.Some? ==> r.current == info
    ensures info.Some? ==>
              r.view == ShowInfo(c.view, info.value).(favicon := FaviconFor(c.view.favicon, info.value.url, parse))
  {
    match info
    case None => c
    case Some(v) => Card(info, ShowInfo(c.view, v).(favicon := FaviconFor(c.view.favicon, v.url, parse)))
  }

  /** The download dialog's `updateVideoInfo()`: the same without an icon. */
  function UpdateDialogView(view: View, info: Option<VideoInfo>): (r: View)
    ensures info.None? ==> r == view
    ensures info.Some? ==> r == ShowInfo(view, info.value)
  {
    match info
    case None => view
    case Some(v) => ShowInfo(view, v)
  }

  // ---------------------------------------------------------------------------
  // Downloading (lines 193-206 and 420-484)
  // ---------------------------------------------------------------------------

  /** `onDownloadTypeChange`: the video quality group is shown only for "video". */
  function QualityGroupVisible(downloadType: string): (r: bool)
    ensures r <==> downloadType == "video"
  {
    downloadType == "video"
  }

  /** The controls `startDownload` reads. `downloadType` is the value of the
      checked radio button, or `None` when none is checked. */
  datatype DownloadForm = DownloadForm(downloadType: Option<string>, videoQuality: string, audioQuality: string, audioFormat: string)

  /** The body of the POST request. */
  datatype Payload = Payload(
    url: string, title: string, downloadType: string, videoQuality: string,
    audioQuality: string, audioFormat: string, folder: JsVal)

  /** The request: the server address and port from the settings, and the body. */
  datatype Post = Post(serverIp: JsVal, serverPort: JsVal, payload: Payload)

  /** `startDownload`: nothing without a record, and nothing when no download
      type is checked (reading `.value` of `null` throws inside the `try`, and
      the `catch` only shows an error); otherwise the record's address and
      title, every control's value whether or not it is visible, and the
      folder from the settings. */
  function StartDownload(info: Option<VideoInfo>, settings: Settings, form: DownloadForm): (r: Option<Post>)
    ensures r.None? <==> info.None? || form.downloadType.None?
    ensures r.Some? ==>
              && r.value.serverIp == settings.serverIp && r.value.serverPort == settings.serverPort
              && r.value.payload.url == info.value.url && r.value.payload.title == info.value.title
              && r.value.payload.folder == settings.downloadFolder
              && r.value.payload.downloadType == form.downloadType.value
              && r.value.payload.videoQuality == form.videoQuality
              && r.value.payload.audioQuality == form.audioQuality
              && r.value.payload.audioFormat == form.audioFormat
  {
    if info.None? || form.downloadType.None? then None
    else
      var v := info.value;
      Some(Post(settings.serverIp, settings.serverPort,
        Payload(v.url, v.title, form.downloadType.value, form.videoQuality, form.audioQuality,
                form.audioFormat, settings.downloadFolder)))
  }

  /** `openDownloadWindow`: the record handed to a new dialog window, or no
      window at all without one. */
  function OpenDownloadWindow(current: Option<VideoInfo>): (r: Option<VideoInfo>)
    ensures r.None? <==> current.None?
    ensures r.Some? ==> r.value == current.value
  {
    current
  }

  // ---------------------------------------------------------------------------
  // Properties
  // ---------------------------------------------------------------------------

  /** Saving and loading again: language, port and folder come back as saved
      (an empty language as the default), while the address comes back
      unchanged, because it is written under a key that is never read. */
  lemma {:induction false} SaveThenLoad(stored: Storage, form: SettingsForm, parseInt: IntParser)
    ensures var s := LoadSettings(stored);
            var back := LoadSettings(Persist(stored, SaveSettings(s, form, parseInt)));
            && back.serverIp == s.serverIp
            && back.serverPort == Num(SavedPort(form.port, parseInt))
            && back.downloadFolder == Str(if form.folder != [] then form.folder else DefaultFolder)
            && back.language == (if form.language != [] then Str(form.language) else DefaultLanguage)
  {
    var s := LoadSettings(stored);
    var saved := Persist(stored, SaveSettings(s, form, parseInt));
    assert ReadIpKey !in {LanguageKey, WrittenIpKey, PortKey, FolderKey};
    assert ReadIpKey in saved <==> ReadIpKey in stored;
  }

  /** Whatever address is stored under the key the page writes, loading
      ignores it. */
  lemma {:induction false} WrittenAddressIsNeverRead(stored: Storage, ip: JsVal)
    ensures LoadSettings(stored[WrittenIpKey := ip]) == LoadSettings(stored)
  {
  }

  /** Loading is a fixed point on its own output written back under the keys
      it reads. */
  lemma {:induction false} LoadedSettingsReloadUnchanged(stored: Storage)
    ensures var s := LoadSettings(stored);
            LoadSettings(map[LanguageKey := s.language, ReadIpKey := s.serverIp,
                             PortKey := s.serverPort, FolderKey := s.downloadFolder]) == s
  {
  }

  /** Showing the same record twice shows what showing it once did. */
  lemma {:induction false} UpdateCardIdempotent(c: Card, info: Option<VideoInfo>, parse: UrlParser)
    ensures UpdateCard(UpdateCard(c, info, parse), info, parse) == UpdateCard(c, info, parse)
  {
  }

  /** A record extracted by the content script always has a title, so the
      card shows it as it is and never the fallback. */
  lemma {:induction false} ExtractedTitleShownAsIs(page: Page, now: int, parse: UrlParser, c: Card)
    requires ExtractVideoInfo(page, now, parse).Success?
    ensures var info := ExtractVideoInfo(page, now, parse).value;
            UpdateCard(c, Some(info), parse).view.title == info.title
  {
  }

  /** The window opened from the card posts the card's record: its address
      and title, and the folder of the dialog's settings. */
  lemma {:induction false} WindowPostsCardRecord(current: Option<VideoInfo>, settings: Settings, form: DownloadForm)
    ensures var post := StartDownload(OpenDownloadWindow(current), settings, form);
            && (post.None? <==> current.None? || form.downloadType.None?)
            && (post.Some? ==> post.value.payload.url == current.value.url &&
                                post.value.payload.title == current.value.title &&
                                post.value.payload.folder == settings.downloadFolder)
  {
  }

  /** With the audio type chosen the quality group is hidden, yet its value
      is still sent. */
  lemma {:induction false} HiddenQualityStillSent(info: VideoInfo, settings: Settings, form: DownloadForm)
    requires form.downloadType.Some? && form.downloadType.value != "video"
    ensures !QualityGroupVisible(form.downloadType.value)
    ensures StartDownload(Some(info), settings, form).value.payload.videoQuality == form.videoQuality
  {
  }

  /** With no download type checked nothing is posted, even with a record. */
  lemma {:induction false} UncheckedTypePostsNothing(info: VideoInfo, settings: Settings, form: DownloadForm)
    requires form.downloadType.None?
    ensures StartDownload(Some(info), settings, form).None?
    ensures StartDownload(Some(info), settings, form.(downloadType := Some("video"))).Some?
  {
  }
}
