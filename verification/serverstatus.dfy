/**
 * The status line both extension pages show once the local server answers
 * `/status`: a "connected" label, then the server's version, then the name of
 * its download folder. The popup (popup.js, lines 46-48 and 147-171) and the
 * dialog (dialog.js, lines 235-255) format it slightly differently, and they
 * look the label up in their translations differently.
 */
module ServerStatus {
  import opened Wrappers
  import opened Text

  /** Loaded translations: message key to message text. A key whose entry
      has no `message` is absent; an empty message is kept as "". */
  type Translations = map<string, string>

  /** JavaScript `a || b` on two strings: `a` unless it is empty. */
  function OrElse(a: string, b: string): string {
    if a != [] then a else b
  }

  /** The popup's `t(key)`: the message when it is present and non-empty,
      otherwise the key itself. */
  function Translate(tr: Translations, key: string): (r: string)
    ensures key in tr && tr[key] != [] ==> r == tr[key]
    ensures !(key in tr && tr[key] != []) ==> r == key
    ensures key != [] ==> r != []
  {
    if key in tr then OrElse(tr[key], key) else key
  }

  /** The dialog's `this.translations[key] || fallback`. */
  function Message(tr: Translations, key: string, fallback: string): (r: string)
    ensures key in tr && tr[key] != [] ==> r == tr[key]
    ensures !(key in tr && tr[key] != []) ==> r == fallback
  {
    if key in tr then OrElse(tr[key], fallback) else fallback
  }

  /** The popup's label: `this.t('connected') || 'Connected'`. */
  function PopupLabel(tr: Translations): string {
    OrElse(Translate(tr, "connected"), "Connected")
  }

  /** The dialog's label: `this.translations.connected || 'Connected'`. */
  function DialogLabel(tr: Translations): string {
    Message(tr, "connected", "Connected")
  }

  // ---------------------------------------------------------------------------
  // Folder names
  // ---------------------------------------------------------------------------

  /** The characters `split(/[\\/]/)` splits on. */
  const PathSeparators: set<char> := {'/', '\\'}

  /** What is shown when the last path segment is empty. */
  const DefaultFolder := "Downloads"

  /** `folderPath.split(/[\\/]/).pop() || 'Downloads'`: the text after the
      last separator, or the default name when that text is empty. */
  function FolderName(path: string): (r: string)
    ensures path == [] || path[|path| - 1] in PathSeparators ==> r == DefaultFolder
    ensures path != [] && path[|path| - 1] !in PathSeparators ==>
              && 0 < |r| <= |path| && r == path[|path| - |r|..]
              && (forall j :: 0 <= j < |r| ==> r[j] !in PathSeparators)
              && (|r| < |path| ==> path[|path| - |r| - 1] in PathSeparators)
  {
    OrElse(LastSegment(path, PathSeparators), DefaultFolder)
  }

  // ---------------------------------------------------------------------------
  // The status line
  // ---------------------------------------------------------------------------

  /** The parsed `/status` reply: its string-valued fields. A missing field
      and an empty one are both falsy, so both read as "". */
  datatype ServerInfo = ServerInfo(fields: map<string, string>)

  /** `serverInfo.<name>` for a reply that may be `null`. */
  function Field(info: Option<ServerInfo>, name: string): string {
    if info.Some? && name in info.value.fields then info.value.fields[name] else ""
  }

  /** The popup removes one leading "v" before writing its own (line 157). */
  function StripOneV(v: string): (r: string)
    ensures StartsWith(v, "v") ==> v == "v" + r
    ensures !StartsWith(v, "v") ==> r == v
  {
    if StartsWith(v, "v") then v[1..] else v
  }

  /** The folder part: " | <folder name>" for a non-empty folder field. */
  function FolderPart(path: string): (r: string)
    ensures path == [] <==> r == []
    ensures path != [] ==> |r| == 3 + |FolderName(path)|
  {
    if path == [] then [] else " | " + FolderName(path)
  }

  /** The popup's `getServerInfoText`. */
  function PopupServerInfoText(tr: Translations, info: Option<ServerInfo>): (r: string)
    ensures StartsWith(r, PopupLabel(tr))
    ensures r == PopupLabel(tr) <==> Field(info, "version") == [] && Field(info, "downloads_folder") == []
    ensures info.None? || info.value.fields == map[] ==> r == PopupLabel(tr)
    ensures Field(info, "version") != [] ==>
              StartsWith(r, PopupLabel(tr) + " | v" + StripOneV(Field(info, "version")))
    ensures Field(info, "downloads_folder") != [] ==>
              EndsWith(r, " | " + FolderName(Field(info, "downloads_folder")))
    ensures |r| == |PopupLabel(tr)|
                   + (if Field(info, "version") != [] then 4 + |StripOneV(Field(info, "version"))| else 0)
                   + |FolderPart(Field(info, "downloads_folder"))|
  {
    var lead := PopupLabel(tr);
    if info.None? || info.value.fields == map[] then lead
    else
      var version := Field(info, "version");
      var withVersion := if version != [] then lead + " | v" + StripOneV(version) else lead;
      withVersion + FolderPart(Field(info, "downloads_folder"))
  }

  /** The dialog's `getServerInfoText`: the version is written after " | v"
      as it is, without removing a "v" of its own. */
  function DialogServerInfoText(tr: Translations, info: Option<ServerInfo>): (r: string)
    ensures StartsWith(r, DialogLabel(tr))
    ensures r == DialogLabel(tr) <==> Field(info, "version") == [] && Field(info, "downloads_folder") == []
    ensures info.None? || info.value.fields == map[] ==> r == DialogLabel(tr)
    ensures Field(info, "version") != [] ==>
              StartsWith(r, DialogLabel(tr) + " | v" + Field(info, "version"))
    ensures Field(info, "downloads_folder") != [] ==>
              EndsWith(r, " | " + FolderName(Field(info, "downloads_folder")))
    ensures |r| == |DialogLabel(tr)|
                   + (if Field(info, "version") != [] then 4 + |Field(info, "version")| else 0)
                   + |FolderPart(Field(info, "downloads_folder"))|
  {
    var lead := DialogLabel(tr);
    if info.None? || info.value.fields == map[] then lead
    else
      var version := Field(info, "version");
      var withVersion := if version != [] then lead + " | v" + version else lead;
      withVersion + FolderPart(Field(info, "downloads_folder"))
  }

  // ---------------------------------------------------------------------------
  // Properties
  // ---------------------------------------------------------------------------

  /** The popup's `|| 'Connected'` never applies: `t` falls back to the key,
      so an untranslated popup shows "connected" where the dialog shows
      "Connected". */
  lemma {:induction false} UntranslatedLabels(tr: Translations)
    requires "connected" !in tr
    ensures PopupLabel(tr) == "connected"
    ensures DialogLabel(tr) == "Connected"
  {
  }

  /** With a translation for "connected" both pages use it. */
  lemma {:induction false} TranslatedLabelsAgree(tr: Translations)
    ensures "connected" in tr && tr["connected"] != [] ==> PopupLabel(tr) == DialogLabel(tr)
    ensures PopupLabel(tr) != []
  {
  }

  /** The folder name is what `split(...).pop()` gives, unless that is empty. */
  lemma {:induction false} FolderNameIsLastSplitPiece(path: string)
    ensures var pieces := Split(path, PathSeparators);
            FolderName(path) == OrElse(pieces[|pieces| - 1], DefaultFolder)
  {
    SplitLastIsLastSegment(path, PathSeparators);
  }

  /** A path "<dir><separator><name>" shows `name`, with either separator and
      whatever `dir` holds. */
  lemma {:induction false} FolderNameOfJoinedPath(dir: string, sep: char, name: string)
    requires sep in PathSeparators && name != []
    requires forall j :: 0 <= j < |name| ==> name[j] !in PathSeparators
    ensures FolderName(dir + [sep] + name) == name
  {
    var s := dir + [sep] + name;
    var r := FolderName(s);
    assert s[|s| - 1] == name[|name| - 1];
    assert s[|s| - |name| - 1] == sep;
    assert s[|s| - |name|..] == name;
  }

  /** A path ending in a separator shows the default folder name. */
  lemma {:induction false} TrailingSeparatorShowsDefault(dir: string, sep: char)
    requires sep in PathSeparators
    ensures FolderName(dir + [sep]) == DefaultFolder
  {
  }

  /** In the popup, "v1.2" and "1.2" render the same: one leading "v" is
      removed and " | v" is written in front. */
  lemma {:induction false} PopupVersionPrefixIgnored(tr: Translations, fields: map<string, string>, x: string)
    requires x != [] && !StartsWith(x, "v")
    ensures PopupServerInfoText(tr, Some(ServerInfo(fields["version" := "v" + x]))) ==
            PopupServerInfoText(tr, Some(ServerInfo(fields["version" := x])))
    ensures PopupServerInfoText(tr, Some(ServerInfo(fields["version" := x]))) ==
            PopupLabel(tr) + " | v" + x + FolderPart(Field(Some(ServerInfo(fields)), "downloads_folder"))
  {
    assert StartsWith("v" + x, "v");
    assert ("v" + x)[1..] == x;
    var f1 := fields["version" := "v" + x];
    var f2 := fields["version" := x];
    assert Field(Some(ServerInfo(f1)), "downloads_folder") == Field(Some(ServerInfo(fields)), "downloads_folder");
    assert Field(Some(ServerInfo(f2)), "downloads_folder") == Field(Some(ServerInfo(fields)), "downloads_folder");
  }

  /** In the dialog a version already starting with "v" gets a second one:
      "v1.2" is shown as "vv1.2". */
  lemma {:induction false} DialogDoublesVersionPrefix(tr: Translations, fields: map<string, string>, x: string)
    ensures DialogServerInfoText(tr, Some(ServerInfo(fields["version" := "v" + x]))) ==
            DialogLabel(tr) + " | vv" + x + FolderPart(Field(Some(ServerInfo(fields)), "downloads_folder"))
  {
    var f := fields["version" := "v" + x];
    assert Field(Some(ServerInfo(f)), "downloads_folder") == Field(Some(ServerInfo(fields)), "downloads_folder");
    assert DialogLabel(tr) + " | v" + ("v" + x) == DialogLabel(tr) + " | vv" + x;
  }

  /** The two formatters differ only in the label and in the popup's removal
      of one "v": for a version without a leading "v" and a translated label
      they agree. */
  lemma {:induction false} FormattersAgreeWithoutPrefix(tr: Translations, info: Option<ServerInfo>)
    requires "connected" in tr && tr["connected"] != []
    requires !StartsWith(Field(info, "version"), "v")
    ensures PopupServerInfoText(tr, info) == DialogServerInfoText(tr, info)
  {
  }
}
