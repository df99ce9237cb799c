/** The records of the catalogue (src/lib/types.ts) and the small wrappers the
    other modules share. */
module Types {

  /** A value that may be missing: `null`/`undefined` in the application. */
  datatype Option<+T> = None | Some(value: T)

  type UserId = string

  /** A profile's role. The record type lists only `admin` and `user`, but the
      content card also tests for `demo`, so the role column may hold it. A
      missing profile (or a failed lookup) is `None` where an `Option<Role>` is
      expected. */
  datatype Role = Admin | User | Demo

  /** `type: 'book' | 'audiobook'` of a catalogue entry. */
  datatype ContentType = Book | Audiobook

  /** The string stored in the `type` column and shown in the type filter. */
  function TypeName(t: ContentType): (name: string)
    ensures name == "book" <==> t == Book
    ensures name == "audiobook" <==> t == Audiobook
  {
    match t
    case Book => "book"
    case Audiobook => "audiobook"
  }

  /** Parses the `type` form field as the schema's enum does. */
  function ParseContentType(s: string): (r: Option<ContentType>)
    ensures r.Some? <==> s == "book" || s == "audiobook"
    ensures r.Some? ==> TypeName(r.value) == s
  {
    if s == "book" then Some(Book)
    else if s == "audiobook" then Some(Audiobook)
    else None
  }

  datatype Content = Content(
    id: string,
    title: string,
    theme: string,
    coverUrl: string,
    contentType: ContentType,
    downloadUrl: string,
    createdAt: string)

  datatype Profile = Profile(id: UserId, email: string, role: Role)

  datatype VideoLesson = VideoLesson(
    id: string,
    title: string,
    youtubeUrl: string,
    createdAt: string)

  /** `profile?.role === 'admin'`: true only for a profile that exists and
      whose role is exactly `admin`. */
  predicate IsAdmin(profileRole: Option<Role>) {
    profileRole == Some(Admin)
  }

  /** Neither a plain user, nor a demo account, nor a missing profile is an
      admin. */
  lemma OnlyAdminRoleIsAdmin(profileRole: Option<Role>)
    ensures IsAdmin(profileRole) <==> profileRole.Some? && profileRole.value.Admin?
    ensures !IsAdmin(Some(User)) && !IsAdmin(Some(Demo)) && !IsAdmin(None)
  {
  }
}
