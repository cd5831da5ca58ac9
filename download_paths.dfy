/**
 * The destination names built by `downloadArtDirectly` and
 * `createEmptyYamlFile` of utils.js, and the names the extension feeds them.
 */
module DownloadPaths {
  import opened FileNames
  import opened TrackNames

  /** The two extensions `verifyImageAndDetermineExtension` can settle on. */
  datatype Ext = Png | Jpg

  function ExtSuffix(ext: Ext): string {
    match ext
    case Png => ".png"
    case Jpg => ".jpg"
  }

  /**
   * A download the extension asks the browser for. Sequences of downloads
   * are in the order of the calls that request them, not the order in
   * which the browser receives the requests: downloadArtDirectly awaits the
   * image check before it calls `downloads.download`.
   */
  datatype Download =
    | ArtFile(url: string, fileName: string)   // downloadArtDirectly
    | EmptyYaml(fileName: string)              // createEmptyYamlFile, saved from an empty blob

  /** The `fileName` template of downloadArtDirectly. */
  function ArtPath(albumName: string, normalizedTitle: string, ext: Ext, isCover: bool): string {
    albumName + "/album-art/" + albumName + "/" + ArtFileName(normalizedTitle, ext, isCover)
  }

  /** The `fileName` template of createEmptyYamlFile. */
  function YamlPath(albumName: string): string {
    albumName + "/album/" + albumName + ".yaml"
  }

  /** The album directory: the album title normalized as a directory name, with `-` for illegal characters. */
  function AlbumDirectory(albumTitle: string): string {
    NormalizeFileName(albumTitle, "-", true)
  }

  /** The path components of `s`, as `s.split(sep)` gives them. */
  function Split(s: string, sep: char): (parts: seq<string>)
    ensures |parts| >= 1
  {
    if s == [] then [[]]
    else
      var rest := Split(s[1..], sep);
      if s[0] == sep then [[]] + rest else [[s[0]] + rest[0]] + rest[1..]
  }

  lemma {:induction false} SplitWithoutSeparator(s: string, sep: char)
    requires sep !in s
    ensures Split(s, sep) == [s]
  {
    if s != [] {
      SplitWithoutSeparator(s[1..], sep);
      assert [s[0]] + s[1..] == s;
    }
  }

  lemma {:induction false} SplitAtSeparator(a: string, sep: char, b: string)
    requires sep !in a
    ensures Split(a + [sep] + b, sep) == [a] + Split(b, sep)
  {
    var s := a + [sep] + b;
    if a == [] {
      assert s[0] == sep && s[1..] == b;
    } else {
      assert s[0] == a[0] && s[1..] == a[1..] + [sep] + b;
      SplitAtSeparator(a[1..], sep, b);
      assert [a[0]] + a[1..] == a;
    }
  }

  /** The file part of an art path: `cover` or the title, then the extension. */
  function ArtFileName(normalizedTitle: string, ext: Ext, isCover: bool): string {
    (if isCover then "cover" else normalizedTitle) + ExtSuffix(ext)
  }

  lemma ArtPathSeparators(albumName: string, normalizedTitle: string, ext: Ext, isCover: bool)
    ensures ArtPath(albumName, normalizedTitle, ext, isCover)
            == albumName + ['/'] + ("album-art" + ['/'] + (albumName + ['/'] + ArtFileName(normalizedTitle, ext, isCover)))
  {
  }

  lemma ArtFileNameHasNoSlash(normalizedTitle: string, ext: Ext, isCover: bool)
    requires '/' !in normalizedTitle
    ensures '/' !in ArtFileName(normalizedTitle, ext, isCover)
  {
    assert '/' !in ExtSuffix(ext);
    assert '/' !in "cover";
  }

  /**
   * With an album name and a title free of `/`, the art lands in
   * `<album>/album-art/<album>/`, as `cover<ext>` for the cover and as
   * `<title><ext>` for a track.
   */
  lemma ArtPathComponents(albumName: string, normalizedTitle: string, ext: Ext, isCover: bool)
    requires '/' !in albumName && '/' !in normalizedTitle
    ensures Split(ArtPath(albumName, normalizedTitle, ext, isCover), '/')
            == [albumName, "album-art", albumName,
                (if isCover then "cover" else normalizedTitle) + ExtSuffix(ext)]
  {
    var file := ArtFileName(normalizedTitle, ext, isCover);
    var inner := albumName + ['/'] + file;
    var middle := "album-art" + ['/'] + inner;
    ArtPathSeparators(albumName, normalizedTitle, ext, isCover);
    ArtFileNameHasNoSlash(normalizedTitle, ext, isCover);
    assert '/' !in "album-art";
    SplitAtSeparator(albumName, '/', middle);
    SplitAtSeparator("album-art", '/', inner);
    SplitAtSeparator(albumName, '/', file);
    SplitWithoutSeparator(file, '/');
  }

  /** With an album name free of `/`, the stub is `<album>/album/<album>.yaml`. */
  lemma YamlPathComponents(albumName: string)
    requires '/' !in albumName
    ensures Split(YamlPath(albumName), '/') == [albumName, "album", albumName + ".yaml"]
  {
    assert YamlPath(albumName) == albumName + ['/'] + ("album" + ['/'] + (albumName + ".yaml"));
    SplitAtSeparator(albumName, '/', "album" + ['/'] + (albumName + ".yaml"));
    SplitAtSeparator("album", '/', albumName + ".yaml");
    SplitWithoutSeparator(albumName + ".yaml", '/');
  }

  /** The album directory is one path component, and never `.` or `..`. */
  lemma AlbumDirectoryIsOneComponent(albumTitle: string)
    ensures var dir := AlbumDirectory(albumTitle);
      '/' !in dir && dir != "." && dir != ".."
  {
    DirectoryNameIsLegal(albumTitle, "-");
    DirectoryNameShape(albumTitle, "-");
  }

  /**
   * Whatever the album and track titles, a track's art is saved as
   * `<track slug><ext>` inside `<album>/album-art/<album>/`, and neither
   * album component is `.` or `..`.
   */
  lemma TrackArtStaysInAlbum(albumTitle: string, trackTitle: string, ext: Ext)
    ensures var dir := AlbumDirectory(albumTitle);
      var slug := NormalizeTrackName(trackTitle);
      Split(ArtPath(dir, slug, ext, false), '/') == [dir, "album-art", dir, slug + ExtSuffix(ext)]
      && dir != "." && dir != ".."
  {
    AlbumDirectoryIsOneComponent(albumTitle);
    NormalizeTrackNameIsSlug(trackTitle);
    ArtPathComponents(AlbumDirectory(albumTitle), NormalizeTrackName(trackTitle), ext, false);
  }
}
