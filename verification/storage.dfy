/** The SQLite client's file bucket (`StorageBucket`): files by path under
    the bucket's directory, modelled as a map from paths to bytes. Reading a
    missing file answers the bytes of "File not found"; removing one is
    skipped silently. */
module Storage {
  newtype Byte = b: int | 0 <= b < 256

  /** The files of a bucket, by path. */
  type Files = map<string, seq<Byte>>

  function AsciiBytes(s: string): (r: seq<Byte>)
    requires forall i :: 0 <= i < |s| ==> s[i] as int < 256
    ensures |r| == |s| && forall i :: 0 <= i < |s| ==> r[i] as int == s[i] as int
  {
    seq(|s|, i requires 0 <= i < |s| => s[i] as int as Byte)
  }

  /** What `download` returns for a path with no file. */
  function NotFoundBytes(): seq<Byte> {
    AsciiBytes("File not found")
  }

  /** `upload`: the bytes are written at the path, replacing any file there. */
  function Upload(files: Files, path: string, data: seq<Byte>): Files {
    files[path := data]
  }

  /** `download`: the stored bytes, or the bytes of "File not found". */
  function Download(files: Files, path: string): seq<Byte> {
    if path in files then files[path] else NotFoundBytes()
  }

  /** `remove(paths)`: missing paths are skipped silently. */
  function Remove(files: Files, paths: seq<string>): (r: Files)
    ensures forall p :: p in r <==> p in files && p !in paths
    ensures forall p :: p in r ==> r[p] == files[p]
  {
    map p | p in files && p !in paths :: files[p]
  }

  /** Download after upload gives the uploaded bytes; other paths are unaffected. */
  lemma UploadDownload(files: Files, path: string, data: seq<Byte>, other: string)
    requires other != path
    ensures Download(Upload(files, path, data), path) == data
    ensures Download(Upload(files, path, data), other) == Download(files, other)
  {
  }

  /** After removal a path downloads as "File not found"; removing twice is
      removing once. */
  lemma RemoveDownload(files: Files, paths: seq<string>, path: string)
    requires path in paths
    ensures Download(Remove(files, paths), path) == NotFoundBytes()
    ensures Remove(Remove(files, paths), paths) == Remove(files, paths)
  {
  }

  /** Removal touches only the named paths: every other path downloads as
      before, whether or not the named paths existed. */
  lemma RemoveKeepsOthers(files: Files, paths: seq<string>, path: string)
    requires path !in paths
    ensures Download(Remove(files, paths), path) == Download(files, path)
    ensures forall q :: q in paths ==> q !in Remove(files, paths)
  {
  }
}
