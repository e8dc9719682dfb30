# HashCoreB publication lifecycle: a Dafny model

This project models the back end of HashCoreB, a social-media publishing service for client companies.

- A client (a company on a BASIC, STANDARD or FULL plan) owns publications.
- Each publication is a POST or a REEL, with the status DRAFT, SCHEDULED or PUBLISHED.
- Media files are attached to publications.

The model covers the following parts:

- **Publication service.** Quota-checked creation, partial updates, status-only updates and deletion. A change of content type sweeps away the media of the other MIME family and can force the publication back to DRAFT.
- **Media service.** Attaching media checks MIME compatibility. Detaching recounts the remaining media, and the last media leaving a PUBLISHED or SCHEDULED publication sends it back to DRAFT. Media statistics are also modelled.
- **Scheduler tick.** Under an `isRunning` guard, the tick promotes due SCHEDULED publications that have media to PUBLISHED.
- **Media upload and delete handlers.** The upload handler has an exact-match MIME gate, the `publishNow` transition and its rollback. The delete handler sets the response flags.
- **Error handler.** It translates database errors into messages, then runs ordered substring tests that turn a message into an HTTP status.
- **User and client services.** These cover enum checks, defaults, partial updates, the cascade on a role change, and the upload-path normalisation used when deleting stored files.
- **Calendar service.** This covers note validation and normalisation, listing filters, upcoming events and month windows.

## Layout

| file | module | role |
|---|---|---|
| `strings.dfy` | `Strings` | substring test, ASCII lower-casing, whitespace trimming, decimal rendering |
| `domain.dfy` | `Domain` | enumerations and their parsers, table rows, JavaScript truthiness, errors, upload-file names |
| `database.dfy` | `Store` | the `Database` class: one map per table plus the set of stored upload files, with the foreign keys as its invariant |
| `publication_service.dfy` | `PublicationService` | `publication.service.js` |
| `media_service.dfy` | `MediaService` | `media.service.js` |
| `scheduler.dfy` | `PublicationScheduler` | `publicationScheduler.js` |
| `media_controller.dfy` | `MediaController` | the upload and delete handlers of `media.controller.js` |
| `error_handler.dfy` | `ErrorHandler` | `errorHandler.js` |
| `client_service.dfy` | `ClientService` | `client.service.js` |
| `user_service.dfy` | `UserService` | `user.service.js` |
| `calendar_service.dfy` | `CalendarService` | `calendar.service.js` |

### How the model represents the system

- **Tables.** Each table is a map from id to record, held in fields of `Store.Database`.
  - Every mutation goes through a `Database` method that keeps the foreign keys (`Valid()`).
  - Cascading deletes are explicit.
  - A transaction is modelled by checking every failure condition before the first write.
- **Uploads directory.** It is the `files` field.
  - Removing a file can fail. The `unlinkFails` parameter lists the names whose removal throws.
  - Such a failure is only logged, as in the code.
- **Error injection.** Where the code's behaviour depends on a database write throwing, that failure is a boolean or set parameter:
  - the sweep's failing row deletes (`failing`);
  - the scheduler's query and update (`queryFails` / `updateFails`);
  - the publish update of the upload handler (`publishFails`).
- **JavaScript values.** `None` stands for an `undefined` request field.
  - `Truthy` and `OrElse` model `if (x)` and `x || d` on strings, where `""` is falsy.
  - `ToBoolean` models `Boolean(v)`.
  - `Field` distinguishes `undefined` from `null` where the code does.
- **Errors.** `Domain.Error` has four forms:
  - a thrown `Error` with its message;
  - a Prisma known-request error (code and detail);
  - a Prisma validation error (`InvalidQuery`), which Prisma raises before running a query that names an enum value outside the schema;
  - an initialisation error.
- **Time.** Time is an integer count of milliseconds since 1970-01-01 UTC, and the current instant is a parameter `now`.

## Model

| member | source | states |
|---|---|---|
| Domain.ParseContentType | src/modules/publications/services/publication.service.js:7 | a content type is accepted exactly when it is one of the listed names, and the parsed value names it |
| Domain.ParseStatus | src/modules/publications/services/publication.service.js:8 | a status is accepted exactly when it is one of DRAFT/SCHEDULED/PUBLISHED, and the parsed value names it |
| Domain.ParsePlan | src/modules/clients/services/client.service.js:169 | a plan is accepted exactly when it is BASIC, STANDARD or FULL |
| Domain.ParseRole | src/modules/users/services/user.service.js:8 | a role is accepted exactly when it is ADMIN or CLIENTE |
| Domain.AcceptedTypesAreLowerCase | src/modules/media/services/media.service.js:30-40 | every listed MIME type is unchanged by lower-casing, so the service's lower-cased comparison accepts each listed type as written |
| Domain.UploadFileName | src/modules/clients/services/client.service.js:121-125 | the stored file name is a suffix of the media url, obtained by dropping one leading prefix |
| Domain.UploadFileNameForms | src/modules/users/services/user.service.js:385-390 | "/uploads/x", "uploads/x", "/x" and "x" all name the same stored file x |
| Strings.ToLowerIdempotent | src/modules/media/services/media.service.js:30 | lower-casing twice is lower-casing once |
| Strings.TrimEmptyIff | src/modules/calendar/services/calendar.service.js:124 | a title trims to "" exactly when it is all whitespace |
| Strings.TrimIdempotent | src/modules/calendar/services/calendar.service.js:135 | trimming a trimmed title changes nothing |
| Strings.TrimShape | src/modules/calendar/services/calendar.service.js:173 | the trimmed string is the original minus its leading and trailing whitespace, and it neither starts nor ends with whitespace |
| Strings.NatToStringRoundTrip | src/modules/publications/services/publication.service.js:352-355 | the decimal rendering of the plan limit in the quota message reads back as the limit |
| Store.StoredFileNames | src/modules/clients/services/client.service.js:118-125 | every media row with a non-empty url contributes its normalised file name, and every name comes from such a row |
| Store.Unlinked | src/modules/media/services/media.service.js:119-137 | removing a file removes at most that file, and it does remove it unless the removal fails |
| Store.UnlinkedAll | src/modules/clients/services/client.service.js:117-135 | removing a batch of files removes exactly those that exist and whose removal does not fail |
| Store.Database.ClientOfUser | src/modules/users/services/user.service.js:299-300 | a user has at most one client row, and the lookup finds it exactly when it exists |
| Store.Database.DeleteClients | src/modules/clients/services/client.service.js:143-150 | deleting clients cascades to their publications and those publications' media |
| Store.Database.DeleteUserRow | src/modules/users/services/user.service.js:404-408 | deleting a user cascades to its clients, their publications and media, and its calendar notes |
| PublicationService.GetPublicationById | src/modules/publications/services/publication.service.js:138-161 | the lookup succeeds exactly for a stored id and otherwise throws "Publicación no encontrada." |
| PublicationService.Doomed | src/modules/publications/services/publication.service.js:30-47 | the media a sweep removes are all media of that publication |
| PublicationService.DeleteIncompatibleMedia | src/modules/publications/services/publication.service.js:18-82 | when no row delete fails, it removes exactly the incompatible media of the publication, removes their files except those whose removal fails, and returns one distinct entry per removed row; a failing row delete returns [] and keeps every compatible row |
| PublicationService.ScanIncompatible | src/modules/publications/services/publication.service.js:33-75 | the loop deletes exactly the incompatible media of the publication, each reported once with its url, MIME and reason; it stops at a row whose delete throws exactly when such a row exists |
| PublicationService.AbortSweep | src/modules/publications/services/publication.service.js:52-81 | when a row delete throws, the rows deleted before it stay deleted and only files of incompatible media are gone |
| PublicationService.StatusToWrite | src/modules/publications/services/publication.service.js:207-210 | after a sweep that removed something, a missing or empty status becomes DRAFT; a truthy status always wins; without a sweep the request is unchanged |
| PublicationService.Patched | src/modules/publications/services/publication.service.js:214-216 | the query fails validation exactly when a supplied enum value names no member; otherwise each supplied field replaces the stored one and the rest are kept |
| PublicationService.UpdatePublication | src/modules/publications/services/publication.service.js:167-239 | invalid enums are rejected before any write; media are swept only when the content type is supplied and differs, removing exactly the incompatible rows and unlinking their files (a failed unlink only logged); when a row delete fails, the rows deleted before it stay deleted, no other row changes, and only files of incompatible media can be gone; the reported removals are exactly the incompatible media (none when a row delete fails or no sweep applies); the written row is the patch with the swept-aware status, so a sweep that removed media with no status supplied leaves the publication DRAFT; a missing publication changes no row |
| PublicationService.UpdatePublicationStatus | src/modules/publications/services/publication.service.js:267-294 | an invalid status or a missing publication changes nothing; otherwise only the status field changes |
| PublicationService.DeletePublication | src/modules/publications/services/publication.service.js:244-262 | the publication and, by cascade, its media rows are deleted, while their files remain |
| PublicationService.CreatePublication | src/modules/publications/services/publication.service.js:301-381 | enum checks (status defaults to DRAFT), then missing client, inactive client and quota are refused with no write; otherwise exactly one publication with the given client, type and status is added |
| PublicationService.CountAfterInsert | src/modules/publications/services/publication.service.js:345-372 | an insert raises by one only the count of its own client and content type |
| PublicationService.CreationStaysWithinQuota | src/modules/publications/services/publication.service.js:336-352 | a creation the quota admits never takes the client above its plan's limit |
| PublicationService.SecondCreationAtLimitRefused | src/modules/publications/services/publication.service.js:345-356 | one below the limit, a first creation is admitted and a second of the same type is refused |
| PublicationService.SweptUpdateStatus | src/modules/publications/services/publication.service.js:198-210 | after a sweep, the written status is the explicit valid status if given, and DRAFT otherwise |
| PublicationService.UnlistedMimeSurvives | src/modules/publications/services/publication.service.js:30-47 | image/gif, on neither list, survives every content-type change |
| PublicationService.AcceptedMediaSurvive | src/modules/publications/services/publication.service.js:30-47 | media of the new content type's own family are never swept |
| PublicationService.PostToReelScenario | src/modules/publications/services/publication.service.js:198-210 | a PUBLISHED POST with one image/png, changed to REEL, loses the image and becomes a DRAFT REEL |
| MediaService.AcceptedIsSweptByOther | src/modules/media/services/media.service.js:26-40 | what one content type accepts is exactly what a change to the other content type sweeps |
| MediaService.CreateMedia | src/modules/media/services/media.service.js:14-53 | a missing publication or an incompatible MIME (REEL needs video, POST needs image) throws with no change; otherwise exactly one row is added with the given MIME and url |
| MediaService.DeleteMedia | src/modules/media/services/media.service.js:103-168 | null and no change unless the media exists under that publication; otherwise the row and file go, `remaining` is the publication's media count, and the status becomes DRAFT exactly when none remain and it was PUBLISHED or SCHEDULED |
| MediaService.DetachCountsDown | src/modules/media/services/media.service.js:137-142 | detaching a row lowers its publication's media count by exactly one |
| MediaService.NonLastDetachKeepsStatus | src/modules/media/services/media.service.js:144-164 | detaching a media that was not the last leaves media behind, so there is no revert |
| MediaService.MediaStats | src/modules/media/services/media.service.js:175-203 | images (prefix "image/") plus videos (prefix "video/") never exceed the total |
| PublicationScheduler.Scheduler.CheckAndPublish | src/scheduler/publicationScheduler.js:9-68 | a tick that finds `isRunning` set changes nothing; otherwise the guard is released on every path, a failing query or update changes nothing, and a successful tick publishes exactly the due ids |
| PublicationScheduler.PublishAll | src/scheduler/publicationScheduler.js:48-53 | the bulk update sets PUBLISHED on the selected ids and leaves every other row as it was |
| PublicationScheduler.DueIds | src/scheduler/publicationScheduler.js:23-38 | the candidates are stored publications |
| PublicationScheduler.TickPromotesExactlyDue | src/scheduler/publicationScheduler.js:23-57 | a row newly becomes PUBLISHED exactly when it is SCHEDULED, due and has media, and no field other than the status changes |
| PublicationScheduler.SecondTickIsIdle | src/scheduler/publicationScheduler.js:23-56 | a second tick at the same instant finds no candidate |
| PublicationScheduler.NoMediaNoPromotion | src/scheduler/publicationScheduler.js:31-33 | a due SCHEDULED publication without media stays SCHEDULED |
| PublicationScheduler.StaleSelectionStillPublished | src/scheduler/publicationScheduler.js:48-53 | the update filters by id only, so a selected row edited back to DRAFT is still published |
| MediaController.GateImpliesServiceCheck | src/modules/media/controllers/media.controller.js:54-68 | a MIME that passes the handler's exact gate also passes the service's lower-cased check |
| MediaController.UploadMedia | src/modules/media/controllers/media.controller.js:20-141 | a bad id or missing file gives 400 with no change; an unknown publication gives 404 and a non-matching MIME gives 400, each after the upload is removed; otherwise the media is attached |
| MediaController.Attach | src/modules/media/controllers/media.controller.js:70-135 | 201 adds exactly one row with the file's MIME and name, and publishes (dated now) exactly when `publishNow` is "true" on a DRAFT; 500 happens exactly when that publish fails, with the row and its file rolled back |
| MediaController.PublishNow | src/modules/media/controllers/media.controller.js:80-125 | success writes PUBLISHED and the publish date; failure deletes the new row and its file and leaves the publication as it was |
| MediaController.DeleteMediaHandler | src/modules/media/controllers/media.controller.js:223-263 | 400 for a non-numeric id, 404 when the service finds nothing (no change); else 200: the row is deleted, its file unlinked unless that fails, `remaining` is the recount, and `reverted` is true exactly when none remain and the publication was PUBLISHED or SCHEDULED, in which case it was rewritten to DRAFT and otherwise left as it was |
| ErrorHandler.HandlePrismaError | src/shared/utils/errorHandler.js:7-39 | a non-Prisma error keeps its message; an unknown request code gets the database-error prefix |
| ErrorHandler.ClassifyWith | src/shared/utils/errorHandler.js:50-87 | 404 exactly when a not-found pattern occurs, 409 exactly when none does but a conflict pattern occurs, 403 only after the validation group misses, and 400 otherwise |
| ErrorHandler.HandleControllerError | src/shared/utils/errorHandler.js:44-92 | the reply carries the handled message with a 4xx status (the 500 branch cannot be reached), and it is 404 exactly when a not-found pattern matches |
| ErrorHandler.MissingRecordIs404 | src/shared/utils/errorHandler.js:14-17 | P2025 replies 404 "El registro no fue encontrado" |
| ErrorHandler.DuplicateIs409 | src/shared/utils/errorHandler.js:14-16 | P2002 replies 409 with the duplicate message |
| ErrorHandler.InvalidQueryIs400 | src/shared/utils/errorHandler.js:28-30 | a validation error replies 400 "Datos inválidos proporcionados" |
| ErrorHandler.InactiveIs403 | src/shared/utils/errorHandler.js:79-84 | a message with "inactiva" and no earlier pattern replies 403 |
| ErrorHandler.ClientNotFoundIs404 | src/shared/utils/errorHandler.js:51-57 | "Cliente no encontrado" replies 404 |
| ErrorHandler.PublicationNotFoundIs400 | src/shared/utils/errorHandler.js:51-57 | as written, "Publicación no encontrada." replies 400 |
| ErrorHandler.HandleControllerErrorIntended | src/shared/utils/errorHandler.js:51-57 | with the feminine form recognised, any "no encontrada" message replies 404 |
| ErrorHandler.PublicationNotFoundIntendedIs404 | src/modules/publications/services/publication.service.js:154 | with the correction, a missing publication replies 404 |
| ErrorHandler.IntendedAgreesElsewhere | src/shared/utils/errorHandler.js:44-92 | the correction changes no reply for messages without "no encontrada" |
| ClientService.GetClientById | src/modules/clients/services/client.service.js:82-100 | found exactly for a stored id, else "Cliente no encontrado." |
| ClientService.PatchClient | src/modules/clients/services/client.service.js:179-191 | the write fails validation exactly when a supplied plan names no member; the owner never changes; a supplied plan is stored and an undefined one kept |
| ClientService.PatchClientNothing | src/modules/clients/services/client.service.js:179-191 | an update with every field undefined writes the row back unchanged |
| ClientService.PatchClientIdempotent | src/modules/clients/services/client.service.js:179-191 | applying an update twice equals applying it once |
| ClientService.PatchClientKeepsUndefined | src/modules/clients/services/client.service.js:179-191 | every field left undefined keeps its stored value |
| ClientService.UpdateClient | src/modules/clients/services/client.service.js:168-204 | a truthy bad plan throws, an empty plan fails validation, a missing client throws "Cliente no encontrado."; otherwise exactly the patched row is written |
| ClientService.ToggleClientStatus | src/modules/clients/services/client.service.js:207-227 | only the active flag changes, to `Boolean(isActive)` |
| ClientService.ToggleIsStatusUpdate | src/modules/clients/services/client.service.js:207-227 | toggling equals the partial update that supplies only the status |
| ClientService.ClientFilesCoverMedia | src/modules/clients/services/client.service.js:104-125 | the normalised file name of every media url of the client's publications is among the files removed (so "/uploads/x", "uploads/x", "/x" and "x" all remove x), and every file removed comes from such a row |
| ClientService.MissingClientHasNoFiles | src/modules/clients/services/client.service.js:104-160 | a client that does not exist owns no files, so a failed delete removes none |
| ClientService.DeleteClient | src/modules/clients/services/client.service.js:103-161 | a missing client changes nothing; otherwise its files are removed (failures only logged), then the client, its publications and their media |
| UserService.CreateUser | src/modules/users/services/user.service.js:13-45 | missing fields, a bad role or a registered email throw with no change; otherwise exactly one user is added |
| UserService.GetUserById | src/modules/users/services/user.service.js:145-173 | a non-numeric id throws "ID inválido", an unknown one "Usuario no encontrado", a stored one is returned |
| UserService.FoundAfterWrite | src/modules/users/services/user.service.js:145-173 | a user just written is found by its id |
| UserService.PatchUser | src/modules/users/services/user.service.js:192-213 | validation fails exactly for a supplied unknown role; the password changes only when a truthy one is supplied |
| UserService.PatchUserNothing | src/modules/users/services/user.service.js:192-196 | an update with nothing supplied and a falsy password leaves the user unchanged |
| UserService.DropsOnlyOnDemotion | src/modules/users/services/user.service.js:217-219 | the client rows are dropped exactly when a CLIENTE becomes ADMIN |
| UserService.UpdateUser | src/modules/users/services/user.service.js:178-231 | bad id, bad role, missing user, invalid query and a taken email throw with no change; otherwise the patched user is written, and exactly on demotion its client rows, their publications and those publications' media rows are dropped, with nothing else removed |
| UserService.NewClientRow | src/modules/users/services/user.service.js:306-318 | the new client row belongs to the user; its plan is the supplied one or BASIC; it is active unless a status is supplied, then `Boolean(status)`; its contact email is the request's `contact_email`, else the request body's `email`, else "" (never the stored user's email) |
| UserService.CreateUserWithClient | src/modules/users/services/user.service.js:50-118 | missing fields, a bad plan or a registered email throw with no change; otherwise one CLIENTE user and its one client row are added |
| UserService.CreatedClientDefaults | src/modules/users/services/user.service.js:90-100 | the created client row takes the stated defaults |
| UserService.UserWithClientRow | src/modules/users/services/user.service.js:273-284 | the updated user is always CLIENTE, and its password changes only when a truthy one is supplied |
| UserService.UpdateUserWithClient | src/modules/users/services/user.service.js:236-337 | the user row and either the patched existing client or a new client row are written together, or nothing is written |
| UserService.DeleteUser | src/modules/users/services/user.service.js:342-414 | a bad id or missing user changes nothing; otherwise the files under its clients are removed (failures only logged), then the user, its client rows, their publications, those publications' media rows and the user's notes, and no other row |
| CalendarService.NormalizedDescription | src/modules/calendar/services/calendar.service.js:136 | the stored description is the trimmed one, and null when that is empty or it was not given |
| CalendarService.NormalizedDescriptionIdempotent | src/modules/calendar/services/calendar.service.js:177 | normalising a stored description changes nothing |
| CalendarService.CreateCalendarNote | src/modules/calendar/services/calendar.service.js:119-147 | a blank title or missing date throws, a missing user fails the foreign key (P2003), all with no change; otherwise one note with the trimmed title is added |
| CalendarService.StoredTitleIsTrimmed | src/modules/calendar/services/calendar.service.js:124-135 | an accepted title is stored non-empty and already trimmed |
| CalendarService.VisibleToOwnerOrAdmin | src/modules/calendar/services/calendar.service.js:85-114 | without a user id every note is visible; with one, exactly that user's notes are |
| CalendarService.GetCalendarNoteById | src/modules/calendar/services/calendar.service.js:85-114 | found exactly when visible, else "Nota de calendario no encontrada" |
| CalendarService.PatchNote | src/modules/calendar/services/calendar.service.js:167-191 | only the supplied fields change: a supplied title is stored trimmed, a supplied description normalised (`?.trim() || null`), a null description clears it, and a supplied date or `is_event` is stored as given; the owner is kept |
| CalendarService.PatchNoteIdempotent | src/modules/calendar/services/calendar.service.js:167-191 | applying an update twice equals applying it once |
| CalendarService.UpdateCalendarNote | src/modules/calendar/services/calendar.service.js:152-198 | a note not visible to the caller, or a supplied title that trims to empty, throws with no change; otherwise exactly the patched note is written |
| CalendarService.DeleteCalendarNote | src/modules/calendar/services/calendar.service.js:203-226 | a note not visible to the caller (missing, or another user's when a user id is given) throws "Nota de calendario no encontrada o sin permisos" with no change; otherwise exactly that note is deleted, nothing else changes, and the reply is the message "Nota eliminada exitosamente" |
| CalendarService.Select | src/modules/calendar/services/calendar.service.js:13-23 | a listing selects exactly the notes matching owner, inclusive date range and `is_event` |
| CalendarService.OneSidedRangeIgnored | src/modules/calendar/services/calendar.service.js:15-21 | a date range with only one end filters nothing |
| CalendarService.UndefinedIsEventSelectsBoth | src/modules/calendar/services/calendar.service.js:22 | leaving `is_event` undefined selects events and plain notes together |
| CalendarService.UserListingIsAdminListingForUser | src/modules/calendar/services/calendar.service.js:42-56 | a user's listing equals the admin listing filtered on that user (any id, 0 included, since the query string "0" is truthy), and is contained in the unfiltered one |
| CalendarService.Ordered | src/modules/calendar/services/calendar.service.js:246-248 | the notes in ascending date order, each once |
| CalendarService.UpcomingEvents | src/modules/calendar/services/calendar.service.js:231-257 | at most ten of the user's events in [now, now + daysAhead days], in ascending date order; fewer than ten only when there are no more, and every omitted candidate is no earlier than the tenth |
| CalendarService.MonthStep | src/modules/calendar/services/calendar.service.js:269-270 | the days before month m+1 are those before m plus m's length, and a year is its twelve months |
| CalendarService.YearStep | src/modules/calendar/services/calendar.service.js:269-270 | the day number of the next year's January 1 is this year's plus its length |
| CalendarService.DayNumberAnchors | src/modules/calendar/services/calendar.service.js:269-270 | the day numbering puts 1970-01-01 at 0, 1969-12-31 at -1, 2000-01-01 at 10957 and 2000-03-01 at 11017 |
| CalendarService.MonthEnd | src/modules/calendar/services/calendar.service.js:269-270 | day 1 of the month, and day 0 of the following month, land on that month's first and last days |
| CalendarService.MonthRange | src/modules/calendar/services/calendar.service.js:265-270 | a zero year or a month outside 1..12 is refused; otherwise the window runs from the first day's midnight to the last day's 23:59:59.999 |
| CalendarService.MonthsTile | src/modules/calendar/services/calendar.service.js:269-270 | consecutive months' windows abut, each ending one millisecond before the next begins |
| CalendarService.MonthRangeLength | src/modules/calendar/services/calendar.service.js:269-270 | a month's window spans exactly its number of days |
| CalendarService.NotesByMonth | src/modules/calendar/services/calendar.service.js:262-290 | the user's notes dated inside the month's window, or the error for an invalid month |

## Left out

- Password hashing: bcrypt is a foreign library, so a stored password stands for the hash of the given one, and `changePassword` is not modelled.
- JWT, the role and plan middlewares, Socket.IO, comments, the sitemap script, the logger and the environment configuration are not part of this model.
- Concurrency is not modelled: cron scheduling, the timezone and interleaved requests or ticks. `isRunning` is a field checked at tick entry. An interleaving is shown only as a stale selection (`StaleSelectionStillPublished`).
- Clock, dates and time zones: `now` is a parameter, and all instants are UTC milliseconds.
  - Local-time offsets and DST of `new Date(year, month, …)` are not modelled.
  - Dates arrive already parsed, so ISO-string parsing and invalid dates are not modelled.
  - A `note_date` of the number 0 is accepted, whereas `!note_date` in the code rejects it.
- The read-only listings (`getAll*`, `getPublishedPublicationsByClientId`, the group-by statistics, `getMediaByPublicationId`) are not modelled beyond the calendar filters. Their includes and pagination are plain queries.
- CalendarService.AllNotesQuery: the `userId` query parameter arrives already parsed. A non-empty value that `parseInt` reads as NaN is not modelled.
- Result order: `findMany` ordering ties are broken by id (`NoteLe`). The database's own tie order is unspecified.
- Filesystem: `existsSync`/`unlink` become membership in `files` and the `unlinkFails` parameter. `path.join` normalisation of names is not modelled.
- Strings: `toLowerCase` is modelled on ASCII letters only. `toUpperCase` is applied only to stored enum names, which are already upper case, so it is omitted. `trim` removes the full ECMAScript WhiteSpace and LineTerminator set.
- JSON bodies: non-string values in string fields are not modelled. `null` is distinguished from undefined only for the calendar description.
- PublicationService.LimitMessage: the exact text of the quota message is stated by its definition. Only the round trip of its number is proved.
- ErrorHandler: the classification of the fixed messages longer than about 35 characters (the connection-failure and inactive-client messages) is defined but not proved. Both fall through to 400.
- ErrorHandler.HandleControllerError: the `defaultMessage` argument is not modelled. It only matters on the 500 path, which is unreachable.
- UploadMedia: the handler's own `try/catch` around the service calls is not modelled beyond the publish failure. A `createMedia` failure cannot happen after the gate, as `GateImpliesServiceCheck` shows.
- DeletePublication and the role-change cascade of UpdateUser delete media rows without removing their files, as the code does. The orphaned files stay in `files`.
- UserService.UpdateUserWithClient: the error path states only that nothing changes. The exact message for each failing step is given by the method body.
- CalendarService.MonthsTile: it excludes December of years -1, 99 and 0, where the two-digit-year rule (0..99 means 1900..1999) makes the next month's year jump.

### Where the model follows the code rather than the specification

- On a content-type change the status is forced to DRAFT whenever the sweep removed any media, even if compatible media remain (`StatusToWrite`).
- There is no global "PUBLISHED or SCHEDULED implies media" invariant: creation and `updatePublicationStatus` can set either status with no media.
- The scheduler's bulk update filters on ids alone (`PublishAll`, `StaleSelectionStillPublished`).
- An unknown stored plan would crash the quota lookup. Here the plan is a three-value enum, so that state cannot arise.

## Findings

| source | as written | input that shows it | evidently intended | confidence | as-written member | corrected member |
|---|---|---|---|---|---|---|
| src/shared/utils/errorHandler.js:51-57 | the not-found patterns are only masculine ("no encontrado", "no fue encontrado", "No encontrado"), so "Publicación no encontrada." (src/modules/publications/services/publication.service.js:154) matches no rule and falls back to 400 | `Thrown("Publicación no encontrada.")` | a missing publication replies 404, like a missing client or record | not executed | ErrorHandler.PublicationNotFoundIs400 | ErrorHandler.HandleControllerErrorIntended |
