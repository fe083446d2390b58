/** What the two servers have in common: HTTP errors, the files they write and safe file names. */
module ServerTypes {
  import opened Wrappers

  /** An `HTTPException`: the status code and the `detail` string sent to the client. */
  datatype HttpError = HttpError(status: nat, detail: string)

  /** The two folders the servers write to: `uploaded_image` and `edited_image`. */
  datatype Folder = UploadedFolder | EditedFolder

  /** One file written by a request: its folder, its name inside that folder and its bytes. */
  datatype FileWrite = FileWrite(folder: Folder, name: string, bytes: seq<bv8>)

  /** A request's answer together with every file it wrote, in order. */
  datatype Handled<R> = Handled(result: Result<R, HttpError>, writes: seq<FileWrite>)

  /**
   * A name that, joined onto a folder, denotes an entry directly inside that folder: not
   * empty, no '/', and neither `.` nor `..`.
   */
  predicate SafeName(name: string)
  {
    name != "" && '/' !in name && name != "." && name != ".."
  }

  /** A name built from a fixed prefix of three or more characters and pieces without '/' is safe. */
  lemma {:induction false} JoinedNameIsSafe(prefix: string, middle: string, tail: string)
    requires |prefix| >= 3 && '/' !in prefix && '/' !in middle && '/' !in tail
    ensures SafeName(prefix + middle + tail)
  {
    var name := prefix + middle + tail;
    forall i | 0 <= i < |name|
      ensures name[i] != '/'
    {
      if i < |prefix| {
        assert name[i] == prefix[i];
      } else if i < |prefix| + |middle| {
        assert name[i] == middle[i - |prefix|];
      } else {
        assert name[i] == tail[i - |prefix| - |middle|];
      }
    }
  }
}
