/** The script's configuration, passed around as one immutable value. */
module Settings {
  import OsPath

  /**
    The four configuration constants (server address, local library root,
    library root as the server sees it, API key) and the host's `os.sep`.
  */
  datatype Config = Config(host: string, localRoot: string, immichRoot: string, apiKey: string, sep: char)
  {
    /** The separator is one `os.sep` can be, and the local root has been through `os.path.abspath`. */
    predicate Valid()
    {
      OsPath.IsSep(sep) && OsPath.Normalized(localRoot, sep)
    }
  }
}
