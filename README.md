# Catalogue core in Dafny

This project models the deterministic core of a small Next.js + Supabase catalogue of books and
audiobooks with video lessons. It covers four pieces.

- **Route-access policy** (`src/middleware.ts`). Every request is decided from three inputs:
  whether a user is signed in, that user's profile role, and the pathname. The decision is to let
  the request through or to redirect it. The module also models the `config.matcher` pattern,
  which decides which paths the policy runs on at all. The module is `Middleware`, in
  `middleware.dfy`.
- **Catalogue grid** (`src/components/ContentGrid.tsx`). It covers the genre choices (`'all'`
  followed by the distinct themes), the filtered list (title search, genre and type), the
  initial type filter read from `?type=`, and the genres handed to the recommender. The module
  is `ContentGrid`, in `content_grid.dfy`.
- **Video lessons** (`src/app/aulas/page.tsx`). `getYouTubeVideoId` is written as an explicit
  scanner that follows what the regular expression does. It finds the rightmost marker within
  the first line, takes the longest run of characters other than `#`, `&` and `?` after it, and
  accepts that run only if it is exactly 11 characters long, counted in characters (see "Left
  out"). The module also builds the embed URL. The module is `YouTube`, in `youtube.dfy`.
- **Admin actions** (`src/app/admin/actions.ts`). It covers the form schema and the storage key
  taken from a cover URL (`pathname.split('/covers/')[1]`). A URL's pathname is percent-encoded,
  so the key the source takes is the object's path in encoded form; the model decodes it (see
  "Findings"). `PercentEncoding` (`percent_encoding.dfy`) holds that encoding
  and decoding. `upsertContentAction` and `deleteContentAction` are methods that follow the
  source step by step, with one deviation: they remove the decoded key where the source removes
  the raw piece. The module is `AdminActions`, in `admin_actions.dfy`.
  - The answers of the backend are one input value, a `Backend`: the signed-in user, the
    profile role, the URL check, the URL parser, the fresh identifier, the upload outcome, the
    public-URL mapping, and the storage and table errors.
  - The storage removals, upload, table writes and cache revalidations that an action asks for
    are returned in order as a log of effects. That log makes properties such as "no table write
    after an upload error" and "the old cover is removed before the upload" statable.
  - Each method is proved equal to a specification function (`Upsert`, `Delete`). The properties
    are lemmas about those functions.

The records of `src/lib/types.ts` are datatypes in `Types` (`types.dfy`). A profile role is
`Admin | User | Demo`. `demo` is included because `src/components/ContentCard.tsx:21` tests for
it. A missing profile is `None` wherever an `Option<Role>` is expected. `Text` (`text.dfy`)
holds the JavaScript string operations the core uses.

## Model

| member | source | states |
|---|---|---|
| Types.TypeName | src/lib/types.ts:6 | `book` and `audiobook` are the two type names, each naming exactly one type |
| Types.ParseContentType | src/app/admin/actions.ts:13 | the enum accepts exactly `book` and `audiobook`, and parsing inverts `TypeName` |
| Text.Includes | src/components/ContentGrid.tsx:33 | `includes` holds exactly when the term occurs at some position of the string (the empty term occurs everywhere) |
| Text.LowerAscii | src/components/ContentGrid.tsx:33 | lower-casing keeps the length and lowers each ASCII capital, leaving every other character unchanged |
| Types.OnlyAdminRoleIsAdmin | src/middleware.ts:24 | `IsAdmin` holds exactly for a profile whose role is `admin`; a `user` or `demo` role and a missing profile are not admins (the same test is at src/app/admin/actions.ts:36) |
| Text.LowerOfUpper | src/components/ContentGrid.tsx:33 | lower-casing forgets ASCII case: upper-casing first changes nothing |
| Middleware.Decide | src/middleware.ts:20-43 | the decision depends only on the identity (anonymous, member, administrator) and the route class (auth page, admin page, other), and equals the policy table |
| Middleware.Evaluate | src/middleware.ts:26-43 | a request is let through exactly when no redirect rule fires; leaving an auth page and the admin-role check redirect to `/`, the two sign-in rules to `/login`; the first rule fires exactly for a signed-in user on `/login` or `/signup` |
| Middleware.EvaluateFollowsPolicy | src/middleware.ts:26-43 | the ordered chain of checks and the policy table agree on every request; each rule fires exactly for its row of the table |
| Middleware.AuthAndAdminDisjoint | src/middleware.ts:26-34 | no path starts both with `/login` or `/signup` and with `/admin` |
| Middleware.AnonymousRedirectedToLogin | src/middleware.ts:30-32 | an anonymous request to any path outside `/login` and `/signup` is sent to `/login` |
| Middleware.AnonymousAllowedOnAuthPages | src/middleware.ts:26-43 | an anonymous request to a `/login` or `/signup` path is let through |
| Middleware.SignedInLeavesAuthPages | src/middleware.ts:26-28 | a signed-in user on `/login` or `/signup` is sent to `/`, whatever the role |
| Middleware.NonAdminKeptOutOfAdmin | src/middleware.ts:20-40 | a signed-in user whose profile role is not exactly `admin` (`user`, `demo` or no profile) is sent to `/` from every path starting with `/admin` |
| Middleware.AdministratorIsAnAdminPath | src/middleware.ts:34-40 | the prefix test also sends a plain user away from `/administrator` |
| Middleware.AdminAllowedOnAdmin | src/middleware.ts:34-43 | an admin is let through on every `/admin` path |
| Middleware.SignedInAllowedElsewhere | src/middleware.ts:34-43 | every signed-in user is let through on every path outside the auth pages and `/admin`; admins are not forced to `/admin` |
| Middleware.AdminLoginRequiredUnreachable | src/middleware.ts:30-37 | the anonymous redirect inside the `/admin` branch never fires |
| Middleware.NoRedirectLoop | src/middleware.ts:26-43 | the target of every redirect is a path the middleware runs on, and the same identity is let through there |
| Middleware.NoDotNoImageExtension | src/middleware.ts:55 | a path tail without a `.` never ends in one of the excluded image extensions |
| Middleware.PagesRunPolicy | src/middleware.ts:55 | `RunsOn` holds for every path `/` + rest whose rest has no `.`, no line terminator, and does not start with `_next/` or `favicon` |
| Middleware.LoginRunsPolicy | src/middleware.ts:55 | the matcher runs the policy on `/login` |
| Middleware.StaticAssetsBypassPolicy | src/middleware.ts:55 | `_next/static`, `_next/image` and `favicon.ico` paths are not matched |
| Middleware.ImagesBypassPolicy | src/middleware.ts:55 | paths ending in an excluded image extension are not matched |
| Middleware.AdminPagesRunPolicy | src/middleware.ts:55 | `/admin` and `/administrator` are matched |
| ContentGrid.Themes | src/components/ContentGrid.tsx:27 | the themes of the entries, position by position |
| ContentGrid.Distinct | src/components/ContentGrid.tsx:27-28 | `Array.from(new Set(xs))` has no duplicates, has the same members as `xs`, and lists them in order of first occurrence |
| ContentGrid.Genres | src/components/ContentGrid.tsx:26-29 | the genre list starts with `'all'`, and a value is in it exactly when it is `'all'` or the theme of some entry |
| ContentGrid.GenresShape | src/components/ContentGrid.tsx:26-29 | the genre list is `'all'`, then every theme of the catalogue exactly once, in order of first appearance |
| ContentGrid.FilterContents | src/components/ContentGrid.tsx:31-38 | the filtered list is a subsequence of the catalogue, and every kept entry passes all three tests. Each entry occurs as often as in the catalogue if it passes and never otherwise |
| ContentGrid.FilterMembership | src/components/ContentGrid.tsx:31-38 | an entry is shown exactly when it is in the catalogue and passes the search, genre and type tests |
| ContentGrid.NoFilterShowsAll | src/components/ContentGrid.tsx:33-36 | an empty search with both filters on `'all'` shows the whole catalogue, in order |
| ContentGrid.NarrowerFilterKeepsSubsequence | src/components/ContentGrid.tsx:34-35 | a filter that keeps fewer entries shows a subsequence of what the wider one shows |
| ContentGrid.GenreFilterNarrows | src/components/ContentGrid.tsx:34 | choosing a genre instead of `'all'` never adds entries, and every remaining entry has that theme |
| ContentGrid.TypeFilterNarrows | src/components/ContentGrid.tsx:35 | choosing a type instead of `'all'` never adds entries, and every remaining entry has that type |
| ContentGrid.SearchIgnoresCase | src/components/ContentGrid.tsx:33 | search terms equal up to ASCII case show the same list |
| ContentGrid.UpperCaseSearchSame | src/components/ContentGrid.tsx:33 | upper-casing the search term does not change the list |
| ContentGrid.TitleCaseIrrelevant | src/components/ContentGrid.tsx:33 | upper-casing a title does not change whether its entry is shown |
| ContentGrid.UnknownTypeShowsNothing | src/components/ContentGrid.tsx:35 | a type filter other than `'all'`, `book` and `audiobook` shows nothing |
| ContentGrid.InitialTypeFilter | src/components/ContentGrid.tsx:19-24 | the initial type filter is the `type` parameter when present and non-empty, otherwise `'all'` |
| ContentGrid.InitialViewCases | src/components/ContentGrid.tsx:19-35 | the initial view depends on the `type` parameter: the whole catalogue without one, exactly the books for `?type=book`, nothing for an unknown type |
| ContentGrid.RecommenderGenres | src/components/ContentGrid.tsx:73 | the recommender receives `[]` exactly under `'all'`, otherwise the one selected genre |
| YouTube.MarkerLength | src/app/aulas/page.tsx:7 | a matching marker alternative has one of the pattern's lengths, lies inside the string on one line, and ends in `/` or `=` |
| YouTube.LineEnd | src/app/aulas/page.tsx:7 | the first line terminator (or the end): how far the leading `^.*` can reach |
| YouTube.LastMarker | src/app/aulas/page.tsx:7 | the rightmost marker position up to a bound, or none when no marker starts there |
| YouTube.RunEnd | src/app/aulas/page.tsx:7 | the end of the longest run without `#`, `&` or `?` |
| YouTube.VideoId | src/app/aulas/page.tsx:6-10 | an extracted id has exactly 11 characters and none of `#`, `&` or `?`. It is the run after the rightmost marker of the first line, and there is no id when that line has no marker |
| YouTube.YouTubeEmbed | src/app/aulas/page.tsx:12-23 | the error message is shown exactly when there is no id; otherwise an id was extracted and the player's source is the embed prefix followed by exactly that 11-character id |
| YouTube.AcceptedIdHasNoMarker | src/app/aulas/page.tsx:7-9 | an accepted id holds no marker in its first line |
| YouTube.MarkerInSlice | src/app/aulas/page.tsx:7 | a marker found inside a piece of a URL is the same marker of the whole URL at the corresponding position |
| YouTube.MarkerInSuffix | src/app/aulas/page.tsx:7 | a marker of a URL that starts inside its tail is the same marker of that tail |
| YouTube.EmbedMarkerIsRightmost | src/app/aulas/page.tsx:23 | in the player's URL the rightmost marker is the `embed/` that ends the prefix |
| YouTube.ReparseAcceptedId | src/app/aulas/page.tsx:7-23 | an accepted id put behind the embed prefix is accepted again |
| YouTube.EmbedSourceRoundTrip | src/app/aulas/page.tsx:6-23 | extracting the id from the player's own source gives back the id of the original URL |
| YouTube.TrailingParameterIgnored | src/app/aulas/page.tsx:7 | appending `&` and a parameter with no marker-starting character (`y`, `v`, `u`, `e`, `w`, `&`) leaves the extracted id unchanged; this excludes some parameters, such as `&feature=share`, that also leave it unchanged |
| YouTube.StartTimeIgnored | src/app/aulas/page.tsx:7 | appending `&t=30s` leaves the extracted id unchanged |
| YouTube.WatchUrlExample | src/app/aulas/page.tsx:7-9 | `https://www.youtube.com/watch?v=dQw4w9WgXcQ` yields `dQw4w9WgXcQ` |
| YouTube.ShortUrlExample | src/app/aulas/page.tsx:7-9 | `https://youtu.be/dQw4w9WgXcQ` yields `dQw4w9WgXcQ` |
| AdminActions.TextValue | src/app/admin/actions.ts:21 | a form entry read as text is present exactly when the entry holds a string |
| AdminActions.Validate | src/app/admin/actions.ts:9-26 | the schema rejects exactly these cases: a non-string `id`, a title shorter than 2, an empty theme, a type other than `book`/`audiobook`, or a missing or invalid download URL. Accepted fields are the form's strings |
| AdminActions.NewImage | src/app/admin/actions.ts:29-38 | a new image is an uploaded file of positive size under `cover_image` |
| AdminActions.CoverKey | src/app/admin/actions.ts:41 | the key is missing exactly when `/covers/` does not occur. Otherwise it is the text between the first separator and the next one (or the end), and it contains no separator |
| AdminActions.RawKeyToRemove | src/app/admin/actions.ts:41-42 | the key as written: the split piece of the URL's pathname, present only when the URL parses and the piece is non-empty, and then always; it holds no separator |
| AdminActions.KeyToRemove | src/app/admin/actions.ts:41-42 | the key removed: present exactly when the source's key is, and then the decoding of that key, never empty |
| AdminActions.RawKeyMissesEscapedName | src/app/admin/actions.ts:41-43 | for an object path with a character that the URL escapes, the source's key is the encoded path, which is not the object's path |
| AdminActions.SpacedNameExample | src/app/admin/actions.ts:41-43 | for the pathname `/covers/a%20b` the source's key is `a%20b`, while the object is `a b` |
| AdminActions.OldCoverRemoval | src/app/admin/actions.ts:40-45 | the removal before an upload is at most one storage removal, present exactly when editing with an existing cover whose key is present, and then removes that key |
| PercentEncoding.Encode | src/app/admin/actions.ts:41 | an object path as written into its public URL (`encodeURI` on ASCII): never shorter, longer when a character is escaped, unchanged when none is |
| PercentEncoding.Decode | src/app/admin/actions.ts:41 | decoding a non-empty text gives a non-empty text |
| PercentEncoding.DecodeEncode | src/app/admin/actions.ts:41 | decoding an encoded path gives the path back |
| PercentEncoding.SpaceIsEscaped | src/app/admin/actions.ts:41 | a space in a file name appears as `%20` in the pathname |
| PercentEncoding.DecodeEscapeChar | src/app/admin/actions.ts:41 | decoding reads one character's escape back as that character |
| AdminActions.CoverKeyOfObjectPath | src/app/admin/actions.ts:41 | splitting `<prefix>/covers/<path>` gives back `path` when only the first separator occurs |
| AdminActions.UploadPath | src/app/admin/actions.ts:47 | a new cover is stored under the user's folder and ends in `-` and the file's name |
| AdminActions.UpsertContent | src/app/admin/actions.ts:17-79 | the step-by-step action returns the result and the effects of the specification function `Upsert`; the old cover's key is decoded before removal (see Findings) |
| AdminActions.DeleteContent | src/app/admin/actions.ts:82-113 | the step-by-step action returns the result and the effects of the specification function `Delete`; the cover's key is decoded before removal (see Findings) |
| AdminActions.UpsertGuards | src/app/admin/actions.ts:23-36 | invalid fields, then no user, then a non-admin role each fail with their message before any effect. Any effect means the form was valid and the caller an admin |
| AdminActions.UpsertOrdered | src/app/admin/actions.ts:38-78 | an upsert's effects come in order: removal, upload, one table write, revalidations |
| AdminActions.UpsertRemovesOldCoverFirst | src/app/admin/actions.ts:38-50 | a removal happens only on an edit with a new image and an existing cover. It comes first, removes that cover's key, and is followed by the upload. An unparsable existing URL throws with no effect |
| AdminActions.UpsertIgnoresRemoveError | src/app/admin/actions.ts:43 | the removal's error does not change the upsert |
| AdminActions.UpsertUploads | src/app/admin/actions.ts:47-54 | an upload happens only for a new image, at the user's path; it is always attempted once the guards pass. A failed upload returns its message with no table write |
| AdminActions.UpsertRequiresCover | src/app/admin/actions.ts:60-62 | no new image and no existing cover URL fails with `Cover image is required.` and no effect. An upload whose public URL is empty never reaches the table |
| AdminActions.UpsertRowWritten | src/app/admin/actions.ts:28-68 | the row written is an update of the given id exactly when the id is non-empty, otherwise an insert. It holds the validated fields and the new public URL (with a new image) or the existing URL |
| AdminActions.UpsertOutcome | src/app/admin/actions.ts:70-78 | a table error fails with its message after the write; success ends with the write and the two revalidations; revalidation happens only on success |
| AdminActions.DeleteGuards | src/app/admin/actions.ts:87-94 | no user, then a non-admin role fail with their message and no effect. The action throws exactly when an admin's non-empty cover URL does not parse |
| AdminActions.DeleteOrdered | src/app/admin/actions.ts:93-112 | a delete's effects come in order: removal, row delete, revalidations |
| AdminActions.DeleteRemovesCoverFirst | src/app/admin/actions.ts:93-101 | a removal happens only for a non-empty cover URL with a non-empty key, and comes first. A removal error stops the action before the row delete |
| AdminActions.DeleteOutcome | src/app/admin/actions.ts:103-112 | the only table write is the delete of the given id, which always happens unless a removal failed. A table error returns its message; success ends with the delete and the two revalidations |
| AdminActions.KeyOfPublicUrl | src/app/admin/actions.ts:94-95 | the key removed for a public URL whose pathname is `<prefix>/covers/` followed by the encoded `path` is `path` |
| AdminActions.UploadedCoverSaved | src/app/admin/actions.ts:56-68 | a successful upsert with a new image writes a row whose cover URL is the upload's non-empty public URL |
| AdminActions.UploadedCoverRemovedOnDelete | src/app/admin/actions.ts:56-96 | the cover URL saved by a successful upsert with a new image, when its pathname names the uploaded object (in encoded form), leads a later delete to remove that object first |
| AdminActions.EditRemovesPreviousCover | src/app/admin/actions.ts:40-50 | replacing a cover whose URL's pathname names the previous object (in encoded form) removes that object and then uploads the new one |

## Findings

| source | as written | input that shows it | evidently intended | confidence | as-written member | corrected member |
|---|---|---|---|---|---|---|
| src/app/admin/actions.ts:41-43 | the storage key is the piece of `new URL(cover_url).pathname` after `/covers/`, and the pathname is percent-encoded; the same code is at lines 94-96 | a cover uploaded as `a b.jpg` (or `minha capa.jpg`): its public URL's pathname ends in `a%20b.jpg`, so `remove` is asked for `…-a%20b.jpg`, an object that does not exist, and the old cover stays in storage | remove the object the URL names, that is the decoded piece | not executed | AdminActions.RawKeyToRemove | AdminActions.KeyToRemove |

`AdminActions.RawKeyMissesEscapedName` shows that the key as written misses every object path
with an escaped character, and `AdminActions.SpacedNameExample` works the `a b` case through.
`AdminActions.KeyOfPublicUrl` proves that the decoded key names the object, through
`PercentEncoding.DecodeEncode`. `Upsert`, `Delete` and both action methods remove the decoded key.

## Left out

- Supabase (`auth.getUser`, the `profiles` lookup, storage `upload`/`remove`/`getPublicUrl`, the `contents` table) is not modelled; its answers are fields of `Backend`. The database orders rows by `created_at`, so that ordering is not part of this model.
- `cookies()` and `revalidatePath` are not modelled beyond the `Revalidate` effect; the session cookies the middleware refreshes are not modelled.
- AdminActions.Validate: zod's `.url()` check is the abstract predicate `isUrl`, and title length is counted in characters, not UTF-16 code units.
- AdminActions.KeyToRemove: `new URL(...)` is the abstract parser `pathnameOf`; a URL that does not parse ends the action as `Thrown`. The key is decoded, which the source does not do (see Findings).
- PercentEncoding.Encode: only ASCII characters are escaped; a character outside ASCII is kept, where a URL writes its UTF-8 bytes as escapes. Which characters a storage URL escapes is taken to be what `encodeURI` escapes. That keeps `?` and `#`, where a URL's pathname ends, so for an object path holding either the pathname is not `/covers/` followed by `Encode(path)`: `KeyOfPublicUrl`, `UploadedCoverRemovedOnDelete` and `EditRemovesPreviousCover` then say nothing, and neither key names the object.
- PercentEncoding.Decode: only escapes of a value below 128 are decoded; escapes of UTF-8 bytes and a malformed `%` are kept as text, where `decodeURIComponent` would decode them or throw.
- YouTube.VideoId: lengths are counted in characters, not in UTF-16 code units. A character outside the Basic Multilingual Plane counts once here but twice for the regular expression (both for the 11-character run and for the `.` in `youtu.be`), so an id such as `abcdefghi` followed by one emoji is accepted by the source and refused by the model.
- Middleware.RunsOn: stated through lemmas about the path classes it matches (`PagesRunPolicy` and the examples); it has no contract of its own.
- AdminActions.TextValue: a form holds one value per key; duplicate keys (where `Object.fromEntries` keeps the last and `formData.get` the first) are not modelled. A file under `existing_cover_url` is treated as no cover URL.
- AdminActions.UpsertContent: removes the percent-decoded key where src/app/admin/actions.ts:43 removes the raw piece; the key as written is `AdminActions.RawKeyToRemove` (see Findings). The uploaded object's path is the one the upload reports (`uploadData.path`); nothing relates it to the requested path.
- AdminActions.DeleteContent: removes the percent-decoded key where src/app/admin/actions.ts:96 removes the raw piece; the key as written is `AdminActions.RawKeyToRemove` (see Findings).
- The video-lesson actions the admin dialogs import are not defined in `src/app/admin/actions.ts` and are not modelled.
- Text.LowerAscii: case folding covers ASCII letters only, not full Unicode `toLowerCase`.
- Middleware.RunsOn: the matcher pattern is taken as matching the whole pathname. Next.js's own compilation of matchers beyond that pattern is not modelled.
- The genre recommender (an LLM prompt), the user context and all rendering are not modelled.
