/** The built-in category table: each default category's fixed extension list. */
module Config {

  const MusicExts: seq<string> := ["mp3", "wav", "flac", "ogg", "aac"]
  const PhotosExts: seq<string> := ["jpg", "jpeg", "png", "gif", "bmp", "tiff"]
  const DocsExts: seq<string> := ["txt", "pdf", "docx", "xlsx", "pptx", "csv"]
  const VideosExts: seq<string> := ["mp4", "mkv", "mov", "avi", "wmv", "flv"]

  /** The table keyed by category, in its declared order. */
  const DefaultFolders: seq<(string, seq<string>)> :=
    [("Music", MusicExts), ("Photos", PhotosExts), ("Docs", DocsExts), ("Videos", VideosExts)]
}
