/** The catalogue's server actions (src/app/admin/actions.ts): the form schema,
    the storage key of a cover URL, and the step-by-step procedures that create
    or edit a catalogue entry and delete one.

    The backend is not modelled: what the auth service, the `profiles` lookup,
    the storage bucket and the `contents` table answer is an input (a
    `Backend`), and what the actions ask of storage, of the table and of the
    page cache is returned, in order, as a log of effects. */
module AdminActions {
  import opened Types
  import opened Text
  import opened PercentEncoding

  // ---------------------------------------------------------------------
  // The submitted form.

  datatype File = File(name: string, size: nat)

  /** A form entry holds a string or an uploaded file. */
  datatype FormField = Text(text: string) | Attachment(file: File)

  /** The submitted form, one value per key. */
  type Form = map<string, FormField>

  const IdKey := "id"
  const TitleKey := "title"
  const ThemeKey := "theme"
  const TypeKey := "type"
  const DownloadUrlKey := "download_url"
  const CoverImageKey := "cover_image"
  const ExistingCoverUrlKey := "existing_cover_url"

  /** The string under `key`, if the form holds a string there. */
  function TextValue(form: Form, key: string): (r: Option<string>)
    ensures r.Some? <==> key in form && form[key].Text?
    ensures r.Some? ==> form[key] == Text(r.value)
  {
    if key in form && form[key].Text? then Some(form[key].text) else None
  }

  /** The form holds a string of at least `n` characters under `key`. */
  predicate HasText(form: Form, key: string, n: nat) {
    key in form && form[key].Text? && |form[key].text| >= n
  }

  /** JavaScript truthiness of a string that may be missing: present and
      non-empty. */
  predicate Truthy(s: Option<string>) {
    s.Some? && s.value != ""
  }

  // ---------------------------------------------------------------------
  // `contentSchema`.

  /** The fields the schema keeps; unknown keys are dropped. */
  datatype ContentFields = ContentFields(
    id: Option<string>,
    title: string,
    theme: string,
    contentType: ContentType,
    downloadUrl: string)

  /** `contentSchema.safeParse`: an optional string `id`, a title of at least
      two characters, a non-empty theme, a type of `book` or `audiobook` and a
      download URL that the URL check accepts. `isUrl` stands for that check. */
  function Validate(form: Form, isUrl: string -> bool): (r: Option<ContentFields>)
    ensures r.None? <==>
              (IdKey in form && form[IdKey].Attachment?) ||
              !HasText(form, TitleKey, 2) ||
              !HasText(form, ThemeKey, 1) ||
              TextValue(form, TypeKey).None? ||
              ParseContentType(TextValue(form, TypeKey).value).None? ||
              TextValue(form, DownloadUrlKey).None? ||
              !isUrl(TextValue(form, DownloadUrlKey).value)
    ensures r.Some? ==>
              r.value.id == TextValue(form, IdKey) &&
              TextValue(form, TitleKey) == Some(r.value.title) && |r.value.title| >= 2 &&
              TextValue(form, ThemeKey) == Some(r.value.theme) && |r.value.theme| >= 1 &&
              TextValue(form, TypeKey) == Some(TypeName(r.value.contentType)) &&
              TextValue(form, DownloadUrlKey) == Some(r.value.downloadUrl) && isUrl(r.value.downloadUrl)
  {
    var id := TextValue(form, IdKey);
    var title := TextValue(form, TitleKey);
    var theme := TextValue(form, ThemeKey);
    var kind := TextValue(form, TypeKey);
    var url := TextValue(form, DownloadUrlKey);
    if IdKey in form && id.None? then None
    else if title.None? || |title.value| < 2 then None
    else if theme.None? || |theme.value| < 1 then None
    else if kind.None? || ParseContentType(kind.value).None? then None
    else if url.None? || !isUrl(url.value) then None
    else Some(ContentFields(id, title.value, theme.value, ParseContentType(kind.value).value, url.value))
  }

  /** `formData.get('cover_image') && size > 0`: an uploaded, non-empty file. A
      string in that entry has no size and never counts. */
  function NewImage(form: Form): (r: Option<File>)
    ensures r.Some? <==> CoverImageKey in form && form[CoverImageKey].Attachment? && form[CoverImageKey].file.size > 0
    ensures r.Some? ==> form[CoverImageKey] == Attachment(r.value)
  {
    if CoverImageKey in form && form[CoverImageKey].Attachment? && form[CoverImageKey].file.size > 0 then
      Some(form[CoverImageKey].file)
    else
      None
  }

  // ---------------------------------------------------------------------
  // `new URL(cover_url).pathname.split('/covers/')[1]`.

  const CoversSeparator := "/covers/"

  /** The first occurrence of `sub` in `s` at or after `from`. */
  function FindFrom(s: string, sub: string, from: nat): (r: Option<nat>)
    ensures r.Some? ==> from <= r.value && OccursAt(s, sub, r.value)
    ensures r.Some? ==> forall i: nat :: from <= i < r.value ==> !OccursAt(s, sub, i)
    ensures r.None? ==> forall i: nat :: from <= i ==> !OccursAt(s, sub, i)
    decreases |s| - from
  {
    if from + |sub| > |s| then None
    else if OccursAt(s, sub, from) then Some(from)
    else FindFrom(s, sub, from + 1)
  }

  /** `key` is the second piece when `pathname` is split at `/covers/`: the
      separator first occurs at `p`, and `key` runs from its end to the next
      separator that starts there or later, or to the end. */
  predicate SplitsAt(pathname: string, p: nat, key: string) {
    var start := p + |CoversSeparator|;
    OccursAt(pathname, CoversSeparator, p) &&
    (forall i: nat :: i < p ==> !OccursAt(pathname, CoversSeparator, i)) &&
    OccursAt(pathname, key, start) &&
    (forall i: nat :: start <= i < start + |key| ==> !OccursAt(pathname, CoversSeparator, i)) &&
    (start + |key| == |pathname| || OccursAt(pathname, CoversSeparator, start + |key|))
  }

  /** The second piece of splitting `pathname` at `/covers/`: the text after
      the first separator up to the next one (searched from the end of the
      first) or to the end; missing when there is no separator. */
  function CoverKey(pathname: string): (r: Option<string>)
    ensures r.None? <==> !Includes(pathname, CoversSeparator)
    ensures r.Some? ==> !Includes(r.value, CoversSeparator)
    ensures r.Some? ==> exists p: nat :: SplitsAt(pathname, p, r.value)
  {
    match FindFrom(pathname, CoversSeparator, 0)
    case None => None
    case Some(p) =>
      var start := p + |CoversSeparator|;
      var next := FindFrom(pathname, CoversSeparator, start);
      var key := if next.None? then pathname[start..] else pathname[start..next.value];
      KeyHasNoSeparator(pathname, start, key);
      assert SplitsAt(pathname, p, key);
      Some(key)
  }

  /** A piece that no separator starts inside contains none. */
  lemma KeyHasNoSeparator(pathname: string, start: nat, key: string)
    requires start + |key| <= |pathname| && pathname[start..start + |key|] == key
    requires forall i: nat :: start <= i < start + |key| ==> !OccursAt(pathname, CoversSeparator, i)
    ensures !Includes(key, CoversSeparator)
  {
    forall i: nat | i <= |key| ensures !OccursAt(key, CoversSeparator, i) {
      if OccursAt(key, CoversSeparator, i) {
        SliceOfSlice(pathname, start, key, i, i + |CoversSeparator|);
        assert OccursAt(pathname, CoversSeparator, start + i);
      }
    }
  }

  lemma SliceOfSlice(s: string, start: nat, t: string, lo: nat, hi: nat)
    requires start + |t| <= |s| && s[start..start + |t|] == t
    requires lo <= hi <= |t|
    ensures t[lo..hi] == s[start + lo..start + hi]
  {
    assert forall x :: lo <= x < hi ==> t[x] == s[start + x];
  }

  /** The key as the actions compute it from a stored cover URL: the piece
      after `/covers/` when the URL parses and that piece is non-empty.
      `pathnameOf` stands for `new URL(url).pathname`, missing when the URL
      does not parse. The piece is still percent-encoded. */
  function RawKeyToRemove(url: string, pathnameOf: string -> Option<string>): (r: Option<string>)
    ensures r.Some? ==> pathnameOf(url).Some? && CoverKey(pathnameOf(url).value) == r
    ensures r.Some? ==> r.value != "" && !Includes(r.value, CoversSeparator)
    ensures pathnameOf(url).Some? && Truthy(CoverKey(pathnameOf(url).value)) ==> r.Some?
  {
    match pathnameOf(url)
    case None => None
    case Some(pathname) =>
      var key := CoverKey(pathname);
      if Truthy(key) then key else None
  }

  /** The key of the stored object: the raw key, percent-decoded. This is the
      key the actions below remove. */
  function KeyToRemove(url: string, pathnameOf: string -> Option<string>): (r: Option<string>)
    ensures r.Some? <==> RawKeyToRemove(url, pathnameOf).Some?
    ensures r.Some? ==> r.value != ""
    ensures r.Some? ==> r.value == Decode(RawKeyToRemove(url, pathnameOf).value)
  {
    match RawKeyToRemove(url, pathnameOf)
    case None => None
    case Some(key) => Some(Decode(key))
  }

  /** Splitting a public cover URL's pathname gives back the object path
      behind `/covers/`, as long as the separator first occurs right before it
      and the path holds none. */
  lemma {:induction false} CoverKeyOfObjectPath(prefix: string, path: string)
    requires !Includes(prefix + "/covers", CoversSeparator)
    requires !Includes(path, CoversSeparator)
    ensures CoverKey(prefix + CoversSeparator + path) == Some(path)
  {
    var s := prefix + CoversSeparator + path;
    var start := |prefix| + |CoversSeparator|;
    var t := prefix + "/covers";
    assert OccursAt(s, CoversSeparator, |prefix|);
    assert s[..|t|] == t;
    forall i: nat | i < |prefix| ensures !OccursAt(s, CoversSeparator, i) {
      OccursInPrefix(s, t, CoversSeparator, i);
    }
    assert FindFrom(s, CoversSeparator, 0) == Some(|prefix|);
    assert s[start..] == path;
    forall i: nat | start <= i ensures !OccursAt(s, CoversSeparator, i) {
      OccursInSuffix(s, path, CoversSeparator, i);
    }
    assert FindFrom(s, CoversSeparator, start) == None;
    assert s[start..] == path;
  }

  // ---------------------------------------------------------------------
  // What the backend answers, and what the actions ask of it.

  datatype UploadOutcome = Uploaded(path: string) | UploadFailed(message: string)

  /** The answers of the services the actions call. `pathnameOf` is the URL
      parser, missing when the constructor throws; `uuid` is the one fresh
      identifier drawn; `publicUrlOf` maps a stored object to its public URL;
      `removeError` and `dbError` are the error messages, if any, of the
      storage removal and of the table write. */
  datatype Backend = Backend(
    user: Option<UserId>,
    profileRole: Option<Role>,
    isUrl: string -> bool,
    pathnameOf: string -> Option<string>,
    uuid: string,
    upload: UploadOutcome,
    publicUrlOf: string -> string,
    removeError: Option<string>,
    dbError: Option<string>)

  /** The row written to the `contents` table. */
  datatype ContentRow = ContentRow(
    title: string,
    theme: string,
    contentType: ContentType,
    downloadUrl: string,
    coverUrl: string)

  datatype Effect =
    | RemoveCover(key: string)
    | UploadCover(path: string)
    | InsertRow(row: ContentRow)
    | UpdateRow(id: string, row: ContentRow)
    | DeleteRow(id: string)
    | Revalidate(page: string)
  {
    predicate IsTableWrite() {
      InsertRow? || UpdateRow? || DeleteRow?
    }
  }

  /** The position of an effect in the fixed order of the actions' steps. */
  function Stage(e: Effect): nat {
    match e
    case RemoveCover(_) => 0
    case UploadCover(_) => 1
    case InsertRow(_) => 2
    case UpdateRow(_, _) => 2
    case DeleteRow(_) => 2
    case Revalidate(_) => 3
  }

  /** Removal before upload, storage before the table, at most one effect of
      each of those kinds, and revalidations last. */
  predicate Ordered(log: seq<Effect>) {
    forall i, j :: 0 <= i < j < |log| ==>
      Stage(log[i]) < Stage(log[j]) || (log[i].Revalidate? && log[j].Revalidate?)
  }

  /** Two ordered logs, the first entirely of earlier stages, make an ordered
      log. */
  lemma OrderedConcat(a: seq<Effect>, b: seq<Effect>)
    requires Ordered(a) && Ordered(b)
    requires forall x, y | x in a && y in b :: Stage(x) < Stage(y)
    ensures Ordered(a + b)
  {
    var log := a + b;
    forall i, j | 0 <= i < j < |log|
      ensures Stage(log[i]) < Stage(log[j]) || (log[i].Revalidate? && log[j].Revalidate?)
    {
      if j < |a| {
        assert log[i] == a[i] && log[j] == a[j];
      } else if i >= |a| {
        assert log[i] == b[i - |a|] && log[j] == b[j - |a|];
      } else {
        assert log[i] in a && log[j] in b;
      }
    }
  }

  predicate NoTableWrite(log: seq<Effect>) {
    forall e | e in log :: !e.IsTableWrite()
  }

  datatype ActionResult = Success | Failure(error: string) | Thrown

  const InvalidFieldsMessage := "Invalid fields."
  const UnauthorizedMessage := "Unauthorized"
  const ForbiddenMessage := "Forbidden"
  const CoverRequiredMessage := "Cover image is required."
  const AdminPage := "/admin"
  const HomePage := "/"

  /** Signed in, with a profile whose role is `admin`. */
  predicate Admitted(backend: Backend) {
    backend.user.Some? && IsAdmin(backend.profileRole)
  }

  /** An edit that brings a new image while the entry already has a cover. */
  predicate Replacing(form: Form, fields: ContentFields) {
    Truthy(fields.id) && NewImage(form).Some? && Truthy(TextValue(form, ExistingCoverUrlKey))
  }

  /** The storage path of a new cover: the user's folder, then the fresh
      identifier and the file's name. */
  function UploadPath(user: UserId, uuid: string, fileName: string): (path: string)
    ensures StartsWith(path, user + "/") && EndsWith(path, "-" + fileName)
  {
    var path := user + "/" + uuid + "-" + fileName;
    assert path[..|user + "/"|] == user + "/";
    assert path[|path| - |"-" + fileName|..] == "-" + fileName;
    path
  }

  // ---------------------------------------------------------------------
  // `upsertContentAction`.

  /** What an action returns, with the effects it asked for, in order. */
  datatype Run = Run(result: ActionResult, effects: seq<Effect>)

  /** The removal asked for when there is a key to remove. */
  function RemovalOf(key: Option<string>): (log: seq<Effect>)
    ensures |log| <= 1
    ensures log != [] <==> key.Some?
    ensures log != [] ==> log[0] == RemoveCover(key.value)
  {
    if key.Some? then [RemoveCover(key.value)] else []
  }

  /** The last part of the upsert, once the cover URL is settled: a cover is
      required, then the row is updated (non-empty `id`) or inserted, and the
      pages are revalidated when the write succeeds. */
  function SaveRow(fields: ContentFields, coverUrl: Option<string>, log: seq<Effect>, backend: Backend): Run {
    if !Truthy(coverUrl) then Run(Failure(CoverRequiredMessage), log)
    else
      var row := ContentRow(fields.title, fields.theme, fields.contentType, fields.downloadUrl, coverUrl.value);
      var write := if Truthy(fields.id) then UpdateRow(fields.id.value, row) else InsertRow(row);
      if backend.dbError.Some? then Run(Failure(backend.dbError.value), log + [write])
      else Run(Success, log + [write, Revalidate(AdminPage), Revalidate(HomePage)])
  }

  /** The removal an upsert asks for before its upload: the old cover's key,
      when an edit replaces an existing cover. */
  function OldCoverRemoval(form: Form, fields: ContentFields, backend: Backend): (log: seq<Effect>)
    ensures |log| <= 1 && NoTableWrite(log) && forall e | e in log :: e.RemoveCover?
    ensures log != [] <==>
              Replacing(form, fields) && KeyToRemove(TextValue(form, ExistingCoverUrlKey).value, backend.pathnameOf).Some?
    ensures log != [] ==> log[0] == RemoveCover(KeyToRemove(TextValue(form, ExistingCoverUrlKey).value, backend.pathnameOf).value)
  {
    if Replacing(form, fields) then RemovalOf(KeyToRemove(TextValue(form, ExistingCoverUrlKey).value, backend.pathnameOf)) else []
  }

  /** The upsert's outcome: the guards in order, then (for a new, non-empty
      image) the removal of the old cover when editing and the upload, then
      the row. */
  function Upsert(form: Form, backend: Backend): Run {
    match Validate(form, backend.isUrl)
    case None => Run(Failure(InvalidFieldsMessage), [])
    case Some(fields) =>
      var existing := TextValue(form, ExistingCoverUrlKey);
      if backend.user.None? then Run(Failure(UnauthorizedMessage), [])
      else if !IsAdmin(backend.profileRole) then Run(Failure(ForbiddenMessage), [])
      else match NewImage(form)
      case None => SaveRow(fields, existing, [], backend)
      case Some(image) =>
        if Replacing(form, fields) && backend.pathnameOf(existing.value).None? then Run(Thrown, [])
        else
          var removal := OldCoverRemoval(form, fields, backend);
          var log := removal + [UploadCover(UploadPath(backend.user.value, backend.uuid, image.name))];
          match backend.upload
          case UploadFailed(message) => Run(Failure(message), log)
          case Uploaded(path) => SaveRow(fields, Some(backend.publicUrlOf(path)), log, backend)
  }

  /** `upsertContentAction(formData)`, step by step. */
  method UpsertContent(form: Form, backend: Backend) returns (result: ActionResult, effects: seq<Effect>)
    ensures Run(result, effects) == Upsert(form, backend)
  {
    effects := [];
    var validated := Validate(form, backend.isUrl);
    if validated.None? {
      return Failure(InvalidFieldsMessage), effects;
    }
    var fields := validated.value;
    var coverImage := NewImage(form);
    var coverUrl := TextValue(form, ExistingCoverUrlKey);

    if backend.user.None? {
      return Failure(UnauthorizedMessage), effects;
    }
    if !IsAdmin(backend.profileRole) {
      return Failure(ForbiddenMessage), effects;
    }

    if coverImage.Some? {
      if Truthy(fields.id) && Truthy(coverUrl) {
        var pathname := backend.pathnameOf(coverUrl.value);
        if pathname.None? {
          return Thrown, effects;
        }
        var oldFilePath := CoverKey(pathname.value);
        if Truthy(oldFilePath) {
          // The removal's error is not looked at.
          effects := effects + [RemoveCover(Decode(oldFilePath.value))];
        }
      }
      assert effects == OldCoverRemoval(form, fields, backend);
      var filePath := UploadPath(backend.user.value, backend.uuid, coverImage.value.name);
      effects := effects + [UploadCover(filePath)];
      match backend.upload
      case UploadFailed(message) =>
        return Failure(message), effects;
      case Uploaded(path) =>
        coverUrl := Some(backend.publicUrlOf(path));
    }

    assert Upsert(form, backend) == SaveRow(fields, coverUrl, effects, backend);
    if !Truthy(coverUrl) {
      return Failure(CoverRequiredMessage), effects;
    }

    var row := ContentRow(fields.title, fields.theme, fields.contentType, fields.downloadUrl, coverUrl.value);
    if Truthy(fields.id) {
      effects := effects + [UpdateRow(fields.id.value, row)];
    } else {
      effects := effects + [InsertRow(row)];
    }
    if backend.dbError.Some? {
      return Failure(backend.dbError.value), effects;
    }

    effects := effects + [Revalidate(AdminPage), Revalidate(HomePage)];
    result := Success;
  }

  // ---------------------------------------------------------------------
  // `deleteContentAction`.

  /** The delete's outcome: the guards, then the removal of the stored cover
      (whose error stops the action), then the row, then revalidation. */
  function Delete(id: string, coverUrl: string, backend: Backend): Run {
    if backend.user.None? then Run(Failure(UnauthorizedMessage), [])
    else if !IsAdmin(backend.profileRole) then Run(Failure(ForbiddenMessage), [])
    else if coverUrl != "" && backend.pathnameOf(coverUrl).None? then Run(Thrown, [])
    else RemoveThenDelete(id, if coverUrl != "" then KeyToRemove(coverUrl, backend.pathnameOf) else None, backend)
  }

  /** The delete once the guards passed and the key to remove, if any, is
      known. */
  function RemoveThenDelete(id: string, key: Option<string>, backend: Backend): Run {
    var removal := RemovalOf(key);
    if key.Some? && backend.removeError.Some? then Run(Failure(backend.removeError.value), removal)
    else if backend.dbError.Some? then Run(Failure(backend.dbError.value), removal + [DeleteRow(id)])
    else Run(Success, removal + [DeleteRow(id), Revalidate(AdminPage), Revalidate(HomePage)])
  }

  /** `deleteContentAction(id, cover_url)`, step by step. */
  method DeleteContent(id: string, coverUrl: string, backend: Backend) returns (result: ActionResult, effects: seq<Effect>)
    ensures Run(result, effects) == Delete(id, coverUrl, backend)
  {
    effects := [];
    if backend.user.None? {
      return Failure(UnauthorizedMessage), effects;
    }
    if !IsAdmin(backend.profileRole) {
      return Failure(ForbiddenMessage), effects;
    }

    if coverUrl != "" {
      var pathname := backend.pathnameOf(coverUrl);
      if pathname.None? {
        return Thrown, effects;
      }
      var filePath := CoverKey(pathname.value);
      if Truthy(filePath) {
        effects := effects + [RemoveCover(Decode(filePath.value))];
        if backend.removeError.Some? {
          return Failure(backend.removeError.value), effects;
        }
      }
    }

    effects := effects + [DeleteRow(id)];
    if backend.dbError.Some? {
      return Failure(backend.dbError.value), effects;
    }

    effects := effects + [Revalidate(AdminPage), Revalidate(HomePage)];
    result := Success;
  }

  // ---------------------------------------------------------------------
  // Properties of the upsert.

  /** The guards come in the source's order, and a failing guard leaves
      storage and the table untouched. */
  lemma UpsertGuards(form: Form, backend: Backend)
    ensures Validate(form, backend.isUrl).None? ==>
              Upsert(form, backend) == Run(Failure(InvalidFieldsMessage), [])
    ensures Validate(form, backend.isUrl).Some? && backend.user.None? ==>
              Upsert(form, backend) == Run(Failure(UnauthorizedMessage), [])
    ensures Validate(form, backend.isUrl).Some? && backend.user.Some? && !IsAdmin(backend.profileRole) ==>
              Upsert(form, backend) == Run(Failure(ForbiddenMessage), [])
    ensures Upsert(form, backend).effects != [] ==> Validate(form, backend.isUrl).Some? && Admitted(backend)
  {
  }

  lemma UpsertOrdered(form: Form, backend: Backend)
    ensures Ordered(Upsert(form, backend).effects)
  {
    match Validate(form, backend.isUrl)
    case None =>
    case Some(fields) =>
      var existing := TextValue(form, ExistingCoverUrlKey);
      if backend.user.Some? && IsAdmin(backend.profileRole) {
        match NewImage(form)
        case None =>
          SaveRowOrdered(fields, existing, [], backend);
        case Some(image) =>
          if !(Replacing(form, fields) && backend.pathnameOf(existing.value).None?) {
            var removal := OldCoverRemoval(form, fields, backend);
            var upload := [UploadCover(UploadPath(backend.user.value, backend.uuid, image.name))];
            OrderedConcat(removal, upload);
            if backend.upload.Uploaded? {
              SaveRowOrdered(fields, Some(backend.publicUrlOf(backend.upload.path)), removal + upload, backend);
            }
          }
      }
  }

  lemma SaveRowOrdered(fields: ContentFields, coverUrl: Option<string>, log: seq<Effect>, backend: Backend)
    requires Ordered(log)
    requires forall e | e in log :: Stage(e) < 2
    ensures Ordered(SaveRow(fields, coverUrl, log, backend).effects)
  {
    if Truthy(coverUrl) {
      var row := ContentRow(fields.title, fields.theme, fields.contentType, fields.downloadUrl, coverUrl.value);
      var write := if Truthy(fields.id) then UpdateRow(fields.id.value, row) else InsertRow(row);
      if backend.dbError.Some? {
        OrderedConcat(log, [write]);
      } else {
        OrderedConcat(log, [write, Revalidate(AdminPage), Revalidate(HomePage)]);
      }
    }
  }

  /** The old cover is removed only when editing with a new image over an
      existing cover, and before the upload; a cover URL that does not parse
      makes the action throw before any effect. */
  lemma UpsertRemovesOldCoverFirst(form: Form, backend: Backend)
    ensures var log := Upsert(form, backend).effects;
            forall e | e in log && e.RemoveCover? ::
              Replacing(form, Validate(form, backend.isUrl).value) &&
              KeyToRemove(TextValue(form, ExistingCoverUrlKey).value, backend.pathnameOf) == Some(e.key) &&
              log[0] == e && |log| >= 2 && log[1].UploadCover?
    ensures Validate(form, backend.isUrl).Some? && Admitted(backend) &&
            Replacing(form, Validate(form, backend.isUrl).value) ==>
              var url := TextValue(form, ExistingCoverUrlKey).value;
              var run := Upsert(form, backend);
              (backend.pathnameOf(url).None? <==> run.result == Thrown) &&
              (KeyToRemove(url, backend.pathnameOf).Some? ==>
                 run.effects != [] && run.effects[0] == RemoveCover(KeyToRemove(url, backend.pathnameOf).value))
    ensures Upsert(form, backend).result == Thrown ==> Upsert(form, backend).effects == []
  {
    match Validate(form, backend.isUrl)
    case None =>
    case Some(fields) =>
      var existing := TextValue(form, ExistingCoverUrlKey);
      if backend.user.Some? && IsAdmin(backend.profileRole) {
        match NewImage(form)
        case None =>
          SaveRowKeepsLog(fields, existing, [], backend);
        case Some(image) =>
          if !(Replacing(form, fields) && backend.pathnameOf(existing.value).None?) {
            var removal := OldCoverRemoval(form, fields, backend);
            var log := removal + [UploadCover(UploadPath(backend.user.value, backend.uuid, image.name))];
            if backend.upload.Uploaded? {
              SaveRowKeepsLog(fields, Some(backend.publicUrlOf(backend.upload.path)), log, backend);
            }
          }
      }
  }

  /** The upsert never looks at the outcome of the removal. */
  lemma UpsertIgnoresRemoveError(form: Form, backend: Backend, removeError: Option<string>)
    ensures Upsert(form, backend.(removeError := removeError)) == Upsert(form, backend)
  {
  }

  /** A new, non-empty image is uploaded into the user's folder, and an upload
      error ends the action with its message before any table write. */
  lemma UpsertUploads(form: Form, backend: Backend)
    ensures forall e | e in Upsert(form, backend).effects && e.UploadCover? ::
              NewImage(form).Some? &&
              e.path == UploadPath(backend.user.value, backend.uuid, NewImage(form).value.name)
    ensures Validate(form, backend.isUrl).Some? && Admitted(backend) &&
            NewImage(form).Some? && Upsert(form, backend).result != Thrown ==>
              UploadCover(UploadPath(backend.user.value, backend.uuid, NewImage(form).value.name))
                in Upsert(form, backend).effects
    ensures NewImage(form).Some? && backend.upload.UploadFailed? && Upsert(form, backend).effects != [] ==>
              Upsert(form, backend).result == Failure(backend.upload.message) &&
              NoTableWrite(Upsert(form, backend).effects)
  {
    match Validate(form, backend.isUrl)
    case None =>
    case Some(fields) =>
      var existing := TextValue(form, ExistingCoverUrlKey);
      if backend.user.Some? && IsAdmin(backend.profileRole) {
        match NewImage(form)
        case None =>
          SaveRowKeepsLog(fields, existing, [], backend);
        case Some(image) =>
          if !(Replacing(form, fields) && backend.pathnameOf(existing.value).None?) {
            var removal := OldCoverRemoval(form, fields, backend);
            var upload := UploadCover(UploadPath(backend.user.value, backend.uuid, image.name));
            assert forall e | e in removal + [upload] && e.UploadCover? :: e == upload;
            if backend.upload.Uploaded? {
              SaveRowKeepsLog(fields, Some(backend.publicUrlOf(backend.upload.path)), removal + [upload], backend);
            }
          }
      }
  }

  /** The row step only appends one write and, on success, the revalidations
      to the log it is given. */
  lemma SaveRowKeepsLog(fields: ContentFields, coverUrl: Option<string>, log: seq<Effect>, backend: Backend)
    ensures var run := SaveRow(fields, coverUrl, log, backend);
            |run.effects| >= |log| && run.effects[..|log|] == log &&
            forall e | e in run.effects[|log|..] :: e.IsTableWrite() || e.Revalidate?
    ensures forall e | e in SaveRow(fields, coverUrl, log, backend).effects && !e.IsTableWrite() && !e.Revalidate? :: e in log
  {
    var run := SaveRow(fields, coverUrl, log, backend);
    assert run.effects == log + run.effects[|log|..];
  }

  /** Without a new image and without an existing cover, or when the upload
      yields an empty public URL, nothing is written. */
  lemma UpsertRequiresCover(form: Form, backend: Backend)
    ensures Validate(form, backend.isUrl).Some? && Admitted(backend) &&
            NewImage(form).None? && !Truthy(TextValue(form, ExistingCoverUrlKey)) ==>
              Upsert(form, backend) == Run(Failure(CoverRequiredMessage), [])
    ensures NewImage(form).Some? && backend.upload.Uploaded? && backend.publicUrlOf(backend.upload.path) == "" ==>
              NoTableWrite(Upsert(form, backend).effects) &&
              Upsert(form, backend).result in {Failure(InvalidFieldsMessage), Failure(UnauthorizedMessage),
                                                Failure(ForbiddenMessage), Thrown, Failure(CoverRequiredMessage)}
  {
  }

  /** The row written: an update of the named entry when `id` is non-empty,
      an insert otherwise, with the validated fields and the new public URL
      or the existing cover URL. */
  lemma UpsertRowWritten(form: Form, backend: Backend)
    ensures forall e | e in Upsert(form, backend).effects && e.IsTableWrite() ::
              var fields := Validate(form, backend.isUrl).value;
              (e.UpdateRow? || e.InsertRow?) &&
              (e.UpdateRow? <==> Truthy(fields.id)) &&
              (e.UpdateRow? ==> e.id == fields.id.value) &&
              e.row.title == fields.title && e.row.theme == fields.theme &&
              e.row.contentType == fields.contentType && e.row.downloadUrl == fields.downloadUrl &&
              e.row.coverUrl != "" &&
              (NewImage(form).Some? ==>
                 backend.upload.Uploaded? && e.row.coverUrl == backend.publicUrlOf(backend.upload.path)) &&
              (NewImage(form).None? ==> TextValue(form, ExistingCoverUrlKey) == Some(e.row.coverUrl))
  {
    match Validate(form, backend.isUrl)
    case None =>
    case Some(fields) =>
      var existing := TextValue(form, ExistingCoverUrlKey);
      if backend.user.Some? && IsAdmin(backend.profileRole) {
        match NewImage(form)
        case None =>
          SaveRowWrite(fields, existing, [], backend);
        case Some(image) =>
          if !(Replacing(form, fields) && backend.pathnameOf(existing.value).None?) {
            var removal := OldCoverRemoval(form, fields, backend);
            var log := removal + [UploadCover(UploadPath(backend.user.value, backend.uuid, image.name))];
            assert NoTableWrite(log);
            if backend.upload.Uploaded? {
              SaveRowWrite(fields, Some(backend.publicUrlOf(backend.upload.path)), log, backend);
            }
          }
      }
  }

  /** The write the row step adds: an update of the entry named by a
      non-empty `id`, otherwise an insert, of the fields and a non-empty
      cover URL. */
  lemma SaveRowWrite(fields: ContentFields, coverUrl: Option<string>, log: seq<Effect>, backend: Backend)
    requires NoTableWrite(log)
    ensures forall e | e in SaveRow(fields, coverUrl, log, backend).effects && e.IsTableWrite() ::
              Truthy(coverUrl) &&
              e == (if Truthy(fields.id) then UpdateRow(fields.id.value, e.row) else InsertRow(e.row)) &&
              e.row == ContentRow(fields.title, fields.theme, fields.contentType, fields.downloadUrl, coverUrl.value)
  {
  }

  /** A table error is returned as it is, after the write was attempted;
      success ends with the revalidation of the admin page and the home page,
      and only success revalidates. */
  lemma UpsertOutcome(form: Form, backend: Backend)
    ensures var run := Upsert(form, backend);
            backend.dbError.Some? && !NoTableWrite(run.effects) ==>
              run.result == Failure(backend.dbError.value) && run.effects[|run.effects| - 1].IsTableWrite()
    ensures var run := Upsert(form, backend);
            run.result == Success ==>
              backend.dbError.None? && |run.effects| >= 3 && run.effects[|run.effects| - 3].IsTableWrite() &&
              run.effects[|run.effects| - 2..] == [Revalidate(AdminPage), Revalidate(HomePage)]
    ensures forall e | e in Upsert(form, backend).effects && e.Revalidate? :: Upsert(form, backend).result == Success
  {
    match Validate(form, backend.isUrl)
    case None =>
      assert Upsert(form, backend) == Run(Failure(InvalidFieldsMessage), []);
    case Some(fields) =>
      var existing := TextValue(form, ExistingCoverUrlKey);
      if backend.user.None? {
        assert Upsert(form, backend) == Run(Failure(UnauthorizedMessage), []);
      } else if !IsAdmin(backend.profileRole) {
        assert Upsert(form, backend) == Run(Failure(ForbiddenMessage), []);
      } else {
        match NewImage(form)
        case None =>
          assert Upsert(form, backend) == SaveRow(fields, existing, [], backend);
          SaveRowOutcome(fields, existing, [], backend);
        case Some(image) =>
          if Replacing(form, fields) && backend.pathnameOf(existing.value).None? {
            assert Upsert(form, backend) == Run(Thrown, []);
          } else {
            var removal := OldCoverRemoval(form, fields, backend);
            var log := removal + [UploadCover(UploadPath(backend.user.value, backend.uuid, image.name))];
            assert NoTableWrite(log) && forall e | e in log :: !e.Revalidate?;
            if backend.upload.Uploaded? {
              var coverUrl := Some(backend.publicUrlOf(backend.upload.path));
              assert Upsert(form, backend) == SaveRow(fields, coverUrl, log, backend);
              SaveRowOutcome(fields, coverUrl, log, backend);
            } else {
              assert Upsert(form, backend) == Run(Failure(backend.upload.message), log);
            }
          }
      }
  }

  lemma SaveRowOutcome(fields: ContentFields, coverUrl: Option<string>, log: seq<Effect>, backend: Backend)
    requires NoTableWrite(log) && forall e | e in log :: !e.Revalidate?
    ensures var run := SaveRow(fields, coverUrl, log, backend);
            backend.dbError.Some? && !NoTableWrite(run.effects) ==>
              run.result == Failure(backend.dbError.value) && run.effects[|run.effects| - 1].IsTableWrite()
    ensures var run := SaveRow(fields, coverUrl, log, backend);
            run.result == Success ==>
              backend.dbError.None? && |run.effects| >= 3 && run.effects[|run.effects| - 3].IsTableWrite() &&
              run.effects[|run.effects| - 2..] == [Revalidate(AdminPage), Revalidate(HomePage)]
    ensures var run := SaveRow(fields, coverUrl, log, backend);
            forall e | e in run.effects && e.Revalidate? :: run.result == Success
  {
  }

  // ---------------------------------------------------------------------
  // Properties of the delete.

  lemma DeleteGuards(id: string, coverUrl: string, backend: Backend)
    ensures backend.user.None? ==> Delete(id, coverUrl, backend) == Run(Failure(UnauthorizedMessage), [])
    ensures backend.user.Some? && !IsAdmin(backend.profileRole) ==>
              Delete(id, coverUrl, backend) == Run(Failure(ForbiddenMessage), [])
    ensures Delete(id, coverUrl, backend).result == Thrown <==>
              Admitted(backend) && coverUrl != "" && backend.pathnameOf(coverUrl).None?
    ensures Delete(id, coverUrl, backend).result == Thrown ==> Delete(id, coverUrl, backend).effects == []
  {
  }

  lemma DeleteOrdered(id: string, coverUrl: string, backend: Backend)
    ensures Ordered(Delete(id, coverUrl, backend).effects)
  {
    if Admitted(backend) && !(coverUrl != "" && backend.pathnameOf(coverUrl).None?) {
      RemovalThenDeleteOrdered(if coverUrl != "" then KeyToRemove(coverUrl, backend.pathnameOf) else None, id);
    }
  }

  lemma RemovalThenDeleteOrdered(key: Option<string>, id: string)
    ensures Ordered(RemovalOf(key))
    ensures Ordered(RemovalOf(key) + [DeleteRow(id)])
    ensures Ordered(RemovalOf(key) + [DeleteRow(id), Revalidate(AdminPage), Revalidate(HomePage)])
  {
    var removal := RemovalOf(key);
    OrderedConcat(removal, [DeleteRow(id)]);
    OrderedConcat(removal, [DeleteRow(id), Revalidate(AdminPage), Revalidate(HomePage)]);
  }

  /** The stored cover is removed first, only when the URL names one, and a
      storage error stops the action before the row is touched. */
  lemma DeleteRemovesCoverFirst(id: string, coverUrl: string, backend: Backend)
    ensures var log := Delete(id, coverUrl, backend).effects;
            forall e | e in log && e.RemoveCover? ::
              log[0] == e && coverUrl != "" && KeyToRemove(coverUrl, backend.pathnameOf) == Some(e.key)
    ensures Admitted(backend) && coverUrl != "" && KeyToRemove(coverUrl, backend.pathnameOf).Some? ==>
              var key := KeyToRemove(coverUrl, backend.pathnameOf).value;
              Delete(id, coverUrl, backend).effects[..1] == [RemoveCover(key)] &&
              (backend.removeError.Some? ==>
                 Delete(id, coverUrl, backend) == Run(Failure(backend.removeError.value), [RemoveCover(key)]))
  {
  }

  /** Only the named row is deleted; the action succeeds exactly when that
      delete was asked for and the table reported no error, and then ends
      with the revalidations. */
  lemma DeleteOutcome(id: string, coverUrl: string, backend: Backend)
    ensures forall e | e in Delete(id, coverUrl, backend).effects && e.IsTableWrite() :: e == DeleteRow(id)
    ensures Admitted(backend) && Delete(id, coverUrl, backend).result != Thrown &&
            !(coverUrl != "" && KeyToRemove(coverUrl, backend.pathnameOf).Some? && backend.removeError.Some?) ==>
              DeleteRow(id) in Delete(id, coverUrl, backend).effects
    ensures var run := Delete(id, coverUrl, backend);
            backend.dbError.Some? && DeleteRow(id) in run.effects ==>
              run.result == Failure(backend.dbError.value) && run.effects[|run.effects| - 1] == DeleteRow(id)
    ensures var run := Delete(id, coverUrl, backend);
            run.result == Success <==> DeleteRow(id) in run.effects && backend.dbError.None?
    ensures var run := Delete(id, coverUrl, backend);
            run.result == Success ==>
              |run.effects| >= 3 && run.effects[|run.effects| - 3..] == [DeleteRow(id), Revalidate(AdminPage), Revalidate(HomePage)]
  {
    if Admitted(backend) && !(coverUrl != "" && backend.pathnameOf(coverUrl).None?) {
      RemoveThenDeleteOutcome(id, if coverUrl != "" then KeyToRemove(coverUrl, backend.pathnameOf) else None, backend);
    }
  }

  lemma RemoveThenDeleteOutcome(id: string, key: Option<string>, backend: Backend)
    ensures var run := RemoveThenDelete(id, key, backend);
            (forall e | e in run.effects && e.IsTableWrite() :: e == DeleteRow(id)) &&
            (!(key.Some? && backend.removeError.Some?) ==> DeleteRow(id) in run.effects) &&
            (backend.dbError.Some? && DeleteRow(id) in run.effects ==>
               run.result == Failure(backend.dbError.value) && run.effects[|run.effects| - 1] == DeleteRow(id)) &&
            (run.result == Success <==> DeleteRow(id) in run.effects && backend.dbError.None?) &&
            (run.result == Success ==>
               |run.effects| >= 3 &&
               run.effects[|run.effects| - 3..] == [DeleteRow(id), Revalidate(AdminPage), Revalidate(HomePage)])
  {
    var removal := RemovalOf(key);
    assert forall e | e in removal :: e.RemoveCover?;
    var tail := [DeleteRow(id), Revalidate(AdminPage), Revalidate(HomePage)];
    assert (removal + tail)[|removal + tail| - 3..] == tail;
  }

  // ---------------------------------------------------------------------
  // The cover key of an uploaded object.

  /** The public URL of a stored object names that object again, when its
      pathname is the object path behind a `/covers/` that occurs nowhere
      earlier. */
  lemma KeyOfPublicUrl(url: string, pathnameOf: string -> Option<string>, prefix: string, path: string)
    requires pathnameOf(url) == Some(prefix + CoversSeparator + Encode(path))
    requires !Includes(prefix + "/covers", CoversSeparator)
    requires !Includes(Encode(path), CoversSeparator) && path != ""
    ensures KeyToRemove(url, pathnameOf) == Some(path)
  {
    CoverKeyOfObjectPath(prefix, Encode(path));
    DecodeEncode(path);
  }

  /** As written, the key of such a URL is the object path still encoded: for a
      file name with a character the encoding escapes, it names no object. */
  lemma RawKeyMissesEscapedName(url: string, pathnameOf: string -> Option<string>, prefix: string, path: string)
    requires pathnameOf(url) == Some(prefix + CoversSeparator + Encode(path))
    requires !Includes(prefix + "/covers", CoversSeparator)
    requires !Includes(Encode(path), CoversSeparator)
    requires exists i :: 0 <= i < |path| && Escaped(path[i])
    ensures RawKeyToRemove(url, pathnameOf) == Some(Encode(path))
    ensures RawKeyToRemove(url, pathnameOf) != Some(path)
  {
    CoverKeyOfObjectPath(prefix, Encode(path));
  }

  /** A cover named `a b` behind `/covers/`: the raw key is `a%20b`, the
      decoded key is `a b`. */
  lemma SpacedNameExample(url: string, pathnameOf: string -> Option<string>)
    requires pathnameOf(url) == Some("/covers/a%20b")
    ensures RawKeyToRemove(url, pathnameOf) == Some("a%20b")
    ensures KeyToRemove(url, pathnameOf) == Some("a b")
  {
    var prefix, path := "", "a b";
    SpaceIsEscaped(path);
    assert prefix + CoversSeparator + Encode(path) == "/covers/a%20b";
    PrefixHasNoSeparator(prefix);
    EncodedNameHasNoSeparator();
    assert Escaped(path[1]);
    RawKeyMissesEscapedName(url, pathnameOf, prefix, path);
    KeyOfPublicUrl(url, pathnameOf, prefix, path);
  }

  lemma PrefixHasNoSeparator(prefix: string)
    requires prefix == ""
    ensures !Includes(prefix + "/covers", CoversSeparator)
  {
    assert |prefix + "/covers"| < |CoversSeparator|;
  }

  lemma EncodedNameHasNoSeparator()
    ensures !Includes("a%20b", CoversSeparator)
  {
    assert |"a%20b"| < |CoversSeparator|;
  }

  /** The cover an upsert uploads and saves is the object a later delete of
      that entry removes. */
  lemma UploadedCoverRemovedOnDelete(form: Form, backend: Backend, id: string, later: Backend, prefix: string)
    requires Upsert(form, backend).result == Success && NewImage(form).Some? && backend.upload.Uploaded?
    requires Admitted(later)
    requires later.pathnameOf(backend.publicUrlOf(backend.upload.path)) ==
               Some(prefix + CoversSeparator + Encode(backend.upload.path))
    requires !Includes(prefix + "/covers", CoversSeparator)
    requires !Includes(Encode(backend.upload.path), CoversSeparator) && backend.upload.path != ""
    ensures var saved := backend.publicUrlOf(backend.upload.path);
            (exists e :: e in Upsert(form, backend).effects && e.IsTableWrite() && e.row.coverUrl == saved) &&
            Delete(id, saved, later).effects != [] &&
            Delete(id, saved, later).effects[0] == RemoveCover(backend.upload.path)
  {
    var saved := backend.publicUrlOf(backend.upload.path);
    UploadedCoverSaved(form, backend);
    KeyOfPublicUrl(saved, later.pathnameOf, prefix, backend.upload.path);
    DeleteRemovesCoverFirst(id, saved, later);
  }

  /** A successful upsert with a new image writes the new, non-empty public
      URL into the row. */
  lemma UploadedCoverSaved(form: Form, backend: Backend)
    requires Upsert(form, backend).result == Success && NewImage(form).Some? && backend.upload.Uploaded?
    ensures var saved := backend.publicUrlOf(backend.upload.path);
            saved != "" && exists e :: e in Upsert(form, backend).effects && e.IsTableWrite() && e.row.coverUrl == saved
  {
    var log := Upsert(form, backend).effects;
    UpsertOutcome(form, backend);
    UpsertRowWritten(form, backend);
    assert log[|log| - 3] in log;
  }

  /** Editing an entry whose cover was uploaded earlier removes exactly that
      earlier object. */
  lemma EditRemovesPreviousCover(form: Form, backend: Backend, prefix: string, previous: string)
    requires Validate(form, backend.isUrl).Some? && Admitted(backend)
    requires Replacing(form, Validate(form, backend.isUrl).value)
    requires backend.pathnameOf(TextValue(form, ExistingCoverUrlKey).value) ==
               Some(prefix + CoversSeparator + Encode(previous))
    requires !Includes(prefix + "/covers", CoversSeparator)
    requires !Includes(Encode(previous), CoversSeparator) && previous != ""
    ensures |Upsert(form, backend).effects| >= 2 && Upsert(form, backend).effects[..2] ==
              [RemoveCover(previous), UploadCover(UploadPath(backend.user.value, backend.uuid, NewImage(form).value.name))]
  {
    var existing := TextValue(form, ExistingCoverUrlKey);
    KeyOfPublicUrl(existing.value, backend.pathnameOf, prefix, previous);
    var upload := UploadCover(UploadPath(backend.user.value, backend.uuid, NewImage(form).value.name));
    var log := [RemoveCover(previous), upload];
    assert OldCoverRemoval(form, Validate(form, backend.isUrl).value, backend) + [upload] == log;
    var run := Upsert(form, backend);
    match backend.upload
    case UploadFailed(_) =>
      assert run.effects == log;
    case Uploaded(path) =>
      SaveRowKeepsLog(Validate(form, backend.isUrl).value, Some(backend.publicUrlOf(path)), log, backend);
  }
}
