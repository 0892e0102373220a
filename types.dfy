/** The records of lib/types.ts. Optional TypeScript fields (`x?: T`) are `Option`s;
    dates are opaque values. */
module Types {
  import opened Prelude

  /** A document or identity id assigned by the store or the auth service. */
  type Id = string

  /** A point in time in milliseconds since the epoch, as `Date.now()` reads it. */
  type Millis = nat

  /** The `Date` built from a date string sent by a form; parsing is not modelled. */
  datatype DateText = DateText(text: string)

  datatype Programme = Programme(
    abbrv: string,
    name: string,
    years: int,
    duration: Option<string>,
    description: Option<string>)

  datatype College = College(
    abbrv: string,
    id: Id,
    name: string,
    programme: Option<Programme>)

  datatype User = User(
    college: College,
    endDate: DateText,
    fullName: string,
    regNo: string,
    roles: seq<string>,
    startDate: DateText,
    programme: Programme,
    profilePicUrl: Option<string>)

  datatype Author = Author(
    college: College,
    id: Id,
    name: string,
    roles: seq<string>)

  datatype Announcement = Announcement(
    author: Author,
    body: string,
    createdAt: Millis,
    department: string,
    title: string,
    visibility: seq<string>,
    imageUrls: Option<seq<string>>)

  datatype AnnouncementFormData = AnnouncementFormData(
    authorId: string,
    authorName: string,
    collegeAbbrv: string,
    collegeId: string,
    collegeName: string,
    roles: string,
    body: string,
    department: string,
    title: string,
    visibility: string,
    imageUrls: seq<string>)

  datatype UserFormData = UserFormData(
    collegeId: string,
    programmeId: string,
    endDate: string,
    fullName: string,
    regNo: string,
    roles: string,
    startDate: string,
    profilePicUrl: string)

  /** A file chosen in a browser file input. */
  datatype FileBlob = FileBlob(name: string, mimeType: string, bytes: seq<bv8>)

  /** `file.type.startsWith("image/")` */
  predicate IsImage(f: FileBlob) {
    StartsWith(f.mimeType, "image/")
  }

  /** A programme as the programme-listing route returns it: the stored fields plus
      its own id and its college's id. */
  datatype ProgrammeRow = ProgrammeRow(id: Id, collegeId: Id, programme: Programme)

  /** The outcome of a client `fetch` whose JSON body is read on success: the request
      throws (network error), or answers not-ok, or answers ok with `data`. */
  datatype Fetched<T> = Threw | NotOk | Ok(data: T)

  /** The outcome of a client `fetch` whose body is not read. */
  datatype Sent = SendThrew | Answered(ok: bool)
}
