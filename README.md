# Colis Chine–Afrique: a verified model of the forwarding app's core logic

The application tracks parcels shipped from China to Africa. It has five stages:
`received_china`, `in_transit`, `arrived_africa`, `available_warehouse` and `picked_up`.
It talks to clients through notifications, a per-package chat and WhatsApp links.
This project models the logic of that application in Dafny, with the database calls cut away:

- the French notification texts, with their 160-character cap;
- the WhatsApp link builder and the Cloudinary URL normaliser;
- the two self-check scripts that re-implement both;
- the sign-up validators;
- the package history and badge;
- the chat's message upsert and unread selection;
- the notification and package stores: list updates, row mappings, the retried insert, photo grouping and the archive sweep;
- the recipient picker, the editor's text splice, the dashboard counts, the client's notification tabs and the install-prompt store.

Each source file is a module:

| module | source |
|---|---|
| `JsBuiltins` | the JavaScript built-ins the sources use (`trim`, `join`, `includes`, `String(n)`, `padStart`, `substring`, `slice`) |
| `Domain` | the row types of `src/lib/supabase.ts` |
| `UriEncoding` | `encodeURIComponent`, with `decodeURIComponent` as its inverse |
| `NotificationFormatter`, `Whatsapp`, `Cloudinary` | `src/utils/` |
| `NotificationScript`, `WhatsappScript` | `scripts/` |
| `RegisterForm`, `PackageDetail`, `Chat`, `NotificationSend`, `NotificationForm`, `AdminDashboard`, `ClientNotifications` | the components of the same name |
| `NotificationRows`, `NotificationRetry`, `NotificationStore` | `src/store/notificationStore.ts` |
| `PackageStore`, `PwaStore` | the stores of the same name |

Pure code is modelled with functions and lemmas. The stores and components that update state are classes:

- their methods modify the fields the source sets;
- each method's `ensures` ties the new state to a specification function;
- the loops of the source are methods with invariants: the retry loop, the `findIndex` of the chat, the photo grouping, and the push sequence of the history builder.

Each database answer is a parameter:

- the error message a call returned, if any;
- the rows a query returned;
- for the retried writes, a function from the payload sent to the server's answer.

The clock is a parameter too: `now` as local date fields, or milliseconds for the archive cut-off.

The retry loop of `createNotification` and `updateNotification` is modelled as written. Its type fallback cannot fire when the payload has a `type` and the first rejection is a type-check violation. The list `tryOrder` starts with that type, so the first `shift()` returns the current type. The guard `next !== payload.type` then fails, and the error is rethrown. `NotificationRetry.TypeFallbackNeverTaken` proves this for every such payload. The fallback can still fire from a typed payload once an earlier missing-column error has deleted `type`: the next violation then shifts the old type back in, and a later one reaches `info`. `NotificationRetry.SkippingFallsBackToInfo` proves that a policy that skips unusable candidates reaches `"info"`. The store uses the loop as written.

## Model

| member | source | states |
|---|---|---|
| Domain.Position | src/lib/supabase.ts:20-25 | the status sits at its place in the lifecycle order received → in transit → arrived → available → picked up |
| Domain.StatusKeyInjective | src/lib/supabase.ts:20-25 | distinct statuses have distinct database identifiers |
| NotificationFormatter.StatusLabel | src/utils/notificationFormatter.ts:8-14 | every status has a non-empty French label |
| NotificationFormatter.NextStep | src/utils/notificationFormatter.ts:16-22 | every status has a non-empty next-step hint |
| NotificationFormatter.TablesAreInjective | src/utils/notificationFormatter.ts:8-62 | no two statuses share a label or a hint, so the label identifies the status |
| NotificationFormatter.FormatDateFR | src/utils/notificationFormatter.ts:24-31 | for a valid date, the text is `DD/MM/YYYY HH:MM`: day, month + 1, hour and minute each two zero-padded digits, with the year after the second slash |
| NotificationFormatter.DateShape | src/utils/notificationFormatter.ts:24-31 | with a year of k digits the separators sit at positions 2, 5, 6 + k and 9 + k, and each field can be read back from its slice |
| NotificationFormatter.Truncate | src/utils/notificationFormatter.ts:49-53 | at most 160 characters; a text of 160 or fewer is returned unchanged; a longer one keeps its first 157 characters and ends in `...` |
| NotificationFormatter.TruncateKeepsPrefix | src/utils/notificationFormatter.ts:49-53 | the output without its trailing `...` is always a prefix of the assembled text |
| NotificationFormatter.TruncateKeepsEarlyText | src/utils/notificationFormatter.ts:49-53 | text that ends within the first 157 characters survives truncation |
| NotificationFormatter.StatusSegments | src/utils/notificationFormatter.ts:41-48 | the segments are header, timestamp, an optional `Lieu: ` with the trimmed location, then the hint; there are four segments iff the trimmed location is non-empty |
| NotificationFormatter.FormatStatusNotification | src/utils/notificationFormatter.ts:33-54 | at most 160 characters, and the truncation of the segments joined by ` • ` |
| NotificationFormatter.StatusLayout | src/utils/notificationFormatter.ts:41-49 | the assembled status text, written out with its separators, with and without the location |
| NotificationFormatter.UpdatedAtOverridesClock | src/utils/notificationFormatter.ts:40 | a supplied `updatedAt` is the timestamp rendered, whatever the clock says |
| NotificationFormatter.StatusNamesPackage | src/utils/notificationFormatter.ts:33-54 | when the header fits in 157 characters, the text contains the tracking number and the status label |
| NotificationFormatter.HeaderSurvives | src/utils/notificationFormatter.ts:42-53 | a header that fits before the cut survives truncation, with its tracking number and label |
| NotificationFormatter.FormatCreatedNotification | src/utils/notificationFormatter.ts:64-69 | at most 160 characters, and the truncation of the creation text |
| NotificationFormatter.CreatedEndsWithSignature | src/utils/notificationFormatter.ts:64-69 | an untruncated creation text ends with `Enregistré par le transitaire` |
| NotificationFormatter.SenderPhrase | src/utils/notificationFormatter.ts:73-76 | `de l'administration` exactly when the role is `"admin"`, and `du client` exactly otherwise |
| NotificationFormatter.FormatMessageNotification | src/utils/notificationFormatter.ts:71-80 | at most 160 characters, and the truncation of the message text |
| NotificationFormatter.MessageNamesSender | src/utils/notificationFormatter.ts:71-80 | the text always names the sender; it contains the tracking number whenever that ends within the 157 kept characters: up to 83 characters after the administration's phrase, 93 after the client's |
| Whatsapp.KeepDialChars | src/utils/whatsapp.ts:2 | only `0-9` and `+` remain, and the result is never longer than the input |
| Whatsapp.KeepDialCharsAppend | src/utils/whatsapp.ts:2 | the filter works character by character, so the order of the input is kept |
| Whatsapp.KeepDialCharsOfDial | src/utils/whatsapp.ts:2 | every dial character is kept |
| Whatsapp.KeepDialCharsDrops | src/utils/whatsapp.ts:2 | a character is dropped iff it is not a dial character |
| Whatsapp.KeepDialCharsIdempotent | src/utils/whatsapp.ts:2 | filtering twice is filtering once |
| Whatsapp.StripLeadingPlus | src/utils/whatsapp.ts:3 | one leading `+` is removed; anything else is left alone |
| Whatsapp.NormalizePhone | src/utils/whatsapp.ts:1-5 | the result holds only dial characters; it is the filtered input less one leading `+`; it starts with `+` only when the input's dial characters started with `++` |
| Whatsapp.NormalizeKeepsDigits | src/utils/whatsapp.ts:1-5 | no digit of the input is lost or reordered |
| Whatsapp.NormalizeDigitsOnly | src/utils/whatsapp.ts:1-5 | the result is all digits iff the kept characters have no `+` past the first position |
| Whatsapp.NormalizeQuirks | src/utils/whatsapp.ts:1-5 | `++1` gives `+1`; `1+2` keeps its plus; `0033` is kept as is; null and empty input give `""` |
| Whatsapp.BuildWhatsappUrl | src/utils/whatsapp.ts:7-11 | the link starts with `https://wa.me/`; with no or an empty message it ends in `?text=` |
| Whatsapp.ParseBuild | src/utils/whatsapp.ts:7-11 | reading the link back gives the normalised number and the whole message |
| Whatsapp.ParseParts | src/utils/whatsapp.ts:10 | a link assembled from a dial-character number and an encoded text parses to that number and text |
| UriEncoding.Utf8Bytes | src/utils/whatsapp.ts:9 | one to four bytes per character; one byte exactly for ASCII |
| UriEncoding.HexRoundTrip | src/utils/whatsapp.ts:9 | the hex digit written for a value reads back as that value |
| UriEncoding.EncodeChar | src/utils/whatsapp.ts:9 | unreserved characters pass through; others become `%XX` triples of their UTF-8 bytes |
| UriEncoding.EncodeURIComponent | src/utils/whatsapp.ts:9 | the encoding is never shorter than the text; DecodeEncode proves it reads back |
| UriEncoding.EncodeAppend | src/utils/whatsapp.ts:9 | encoding works character by character |
| UriEncoding.EncodeUnreserved | src/utils/whatsapp.ts:9 | a string of `A-Z a-z 0-9 - _ . ! ~ * ' ( )` is its own encoding |
| UriEncoding.EncodeIsSafe | src/utils/whatsapp.ts:9 | an encoded string holds only unreserved characters, `%` and hex digits |
| UriEncoding.Utf8RoundTrip | src/utils/whatsapp.ts:9 | UTF-8 decoding inverts UTF-8 encoding, and the first byte announces the length |
| UriEncoding.DecodeEncode | src/utils/whatsapp.ts:9 | decoding the encoded message gives the message back |
| UriEncoding.EncodeInjective | src/utils/whatsapp.ts:9 | distinct messages encode differently |
| Cloudinary.StripDeliveryUrl | src/utils/cloudinary.ts:5 | removing the delivery-URL prefix never lengthens the id |
| Cloudinary.StripUploadPrefix | src/utils/cloudinary.ts:6 | a leading `image/upload` and its optional slash are removed; any other id is unchanged |
| Cloudinary.CloudinaryUrlFromPublicId | src/utils/cloudinary.ts:1-8 | `""` iff the cloud name or the id is empty; otherwise the configured delivery base followed by the id with the delivery URL and then the bare upload prefix stripped, no longer than base plus id |
| Cloudinary.PlainIdUnchanged | src/utils/cloudinary.ts:4-7 | an id with no host prefix and no upload prefix appears unchanged after the base |
| Cloudinary.HostWithoutShapeUnchanged | src/utils/cloudinary.ts:4-7 | a URL on the Cloudinary host without the `<cloud>/image/upload` shape (a video URL, say) matches neither pattern and appears whole after the base |
| Cloudinary.RepointsDeliveryUrl | src/utils/cloudinary.ts:5-7 | a full http or https delivery URL of any cloud is re-pointed at the configured cloud, and only its remainder is kept |
| Cloudinary.StripsBareUploadPrefix | src/utils/cloudinary.ts:6-7 | a bare `image/upload` prefix, with or without its slash, is removed |
| Cloudinary.StripsBarePrefixOnce | src/utils/cloudinary.ts:6 | the bare prefix is removed once only: a doubled one leaves the second in place |
| Cloudinary.NormalisedIsStable | src/utils/cloudinary.ts:1-8 | for a cloud name without `/` and an id whose stripped form does not start with `image/upload`, normalising the normalised URL gives it back |
| WhatsappScript.LocalMatchesLibrary | scripts/testWhatsapp.js:1-6 | the script's builder agrees with the library on every input |
| WhatsappScript.LocalBuildWhatsappUrl | scripts/testWhatsapp.js:1-6 | the link starts with `https://wa.me/`; LocalMatchesLibrary proves it equal to the library's |
| WhatsappScript.SampleMessageEncoding | scripts/testWhatsapp.js:4-14 | the sample message encodes to `Bonjour%2C%20concernant%20le%20colis%20ABC123` |
| WhatsappScript.SampleNumbers | scripts/testWhatsapp.js:8-12 | the spaced and the plain international numbers give `243812345678`; the `00` spelling keeps its `00` |
| WhatsappScript.SampleLinks | scripts/testWhatsapp.js:8-16 | the three links the script prints, spelled out; the first and the third are equal |
| WhatsappScript.BuildLinks | scripts/testWhatsapp.js:13-16 | one link per phone, in order, each the library's link |
| WhatsappScript.RunSamples | scripts/testWhatsapp.js:8-16 | the script's run prints the three expected links |
| NotificationScript.ScriptTablesMatchLibrary | scripts/testNotifications.js:10-24 | the script's tables give each status the library's label and hint |
| NotificationScript.ScriptTablesKeys | scripts/testNotifications.js:10-24 | both tables have the same keys, each a status identifier |
| NotificationScript.ScriptLocationTestMatches | scripts/testNotifications.js:33 | `location && location.trim()` is the library's trimmed non-empty test |
| NotificationScript.ScriptStatusMatchesLibrary | scripts/testNotifications.js:26-39 | the script's status formatter is the library's with `updatedAt` omitted |
| NotificationScript.ScriptFormatStatus | scripts/testNotifications.js:26-39 | the text is at most 160 characters |
| NotificationScript.ScriptMessageMatchesLibrary | scripts/testNotifications.js:41-47 | the script's message formatter is the library's |
| NotificationScript.ScriptFormatMessage | scripts/testNotifications.js:41-47 | the text is at most 160 characters |
| NotificationScript.RunStatusChecks | scripts/testNotifications.js:50-67 | for `ABC123456789` and every status, the text holds the tracking number and the label, within 160 characters |
| NotificationScript.RunKinshasaCase | scripts/testNotifications.js:58-67 | for `arrived_africa` in Kinshasa, the text is not truncated and holds `Lieu: Kinshasa, RDC` and the next step |
| NotificationScript.RunMessageChecks | scripts/testNotifications.js:69-79 | the client and admin message texts hold the tracking number, within 160 characters |
| RegisterForm.EmailMatchesIffShape | src/components/auth/RegisterForm.tsx:45-58 | the e-mail test holds iff the address is `X@Y.Z` with non-empty parts free of whitespace and `@` |
| RegisterForm.EmailCheck | src/components/auth/RegisterForm.tsx:45-59 | an empty address is invalid with no message; otherwise it is valid iff it has the shape, and the message appears iff it is invalid |
| RegisterForm.FullStrengthIffAllMet | src/components/auth/RegisterForm.tsx:62-104 | the strength never exceeds 100, is 100 iff all five requirements hold, and the hint list is empty iff they all hold |
| RegisterForm.HintListedIffUnmet | src/components/auth/RegisterForm.tsx:64-104 | a requirement's hint is listed iff that requirement fails |
| RegisterForm.EvaluatePassword | src/components/auth/RegisterForm.tsx:62-110 | an empty password gives 0, no hints and invalid; otherwise the strength is the sum of the weights met, the hints are those of the unmet checks in order, and valid means full strength |
| RegisterForm.Strength | src/components/auth/RegisterForm.tsx:62-110 | the score is at most two eighths per requirement |
| RegisterForm.Unmet | src/components/auth/RegisterForm.tsx:62-110 | at most one hint per requirement |
| RegisterForm.BandThresholds | src/components/auth/RegisterForm.tsx:128-133 | the meter's bands: 0 is very weak, under 50 weak, under 75 medium, and 75 or more strong |
| RegisterForm.StrengthBand | src/components/auth/RegisterForm.tsx:128-133 | the very weak band is exactly the zero score |
| RegisterForm.BandColor | src/components/auth/RegisterForm.tsx:128-133 | every band has a colour class |
| RegisterForm.BandCaption | src/components/auth/RegisterForm.tsx:355-362 | every band has a caption |
| RegisterForm.BandsDistinct | src/components/auth/RegisterForm.tsx:128-133 | no two bands share a caption or a colour |
| RegisterForm.ValidShowsStrong | src/components/auth/RegisterForm.tsx:128-133 | a valid password shows the strong band |
| RegisterForm.StrongButNotValid | src/components/auth/RegisterForm.tsx:62-133 | `Aa345678` shows strong at 87.5 yet is not valid |
| RegisterForm.ConfirmCheck | src/components/auth/RegisterForm.tsx:113-126 | valid iff non-empty and equal to the password; the mismatch message appears iff non-empty and different |
| RegisterForm.Form.FirstFailure | src/components/auth/RegisterForm.tsx:135-160 | only the first failing check is reported, in the order names, e-mail, password, confirmation, terms; nothing iff all pass |
| RegisterForm.Form.DisabledIffWouldRefuse | src/components/auth/RegisterForm.tsx:503-511 | the button is disabled iff loading or some check fails |
| RegisterForm.Form.Submit | src/components/auth/RegisterForm.tsx:135-185 | a failing check is reported and nothing is sent; otherwise sign-up is asked with the trimmed names and role `client`, and its error, if any, is kept |
| PackageDetail.BadgeLabel | src/components/client/PackageDetail.tsx:40-69 | every status has a non-empty badge caption |
| PackageDetail.BadgeColor | src/components/client/PackageDetail.tsx:40-69 | every status has non-empty badge colour classes |
| PackageDetail.BadgeMatchesFormatterExceptWarehouse | src/components/client/PackageDetail.tsx:40-69 | the badge agrees with the notification label iff the status is not `available_warehouse`, and different statuses have different badges |
| PackageDetail.HistoryOf | src/components/client/PackageDetail.tsx:91-143 | one entry per stage up to the current one: the first is `received_china` dated `received_china_at`, the later ones dated `updated_at`, in lifecycle order, ending with the current status |
| PackageDetail.GetStatusHistory | src/components/client/PackageDetail.tsx:91-143 | the pushes build exactly that history |
| PackageDetail.HistoryGrowsWithStatus | src/components/client/PackageDetail.tsx:91-143 | moving a package forward only appends to its history |
| Chat.Upsert | src/components/chat/Chat.tsx:21-29 | the length stays when the id is present and grows by one otherwise |
| Chat.UpsertAppends | src/components/chat/Chat.tsx:23-24 | without a message of that id, the new one is appended |
| Chat.UpsertReplaces | src/components/chat/Chat.tsx:23-27 | otherwise the first message with the id is replaced in place, and every other position is unchanged |
| Chat.UpsertContains | src/components/chat/Chat.tsx:21-29 | after the upsert the list holds the message |
| Chat.UpsertIdempotent | src/components/chat/Chat.tsx:21-29 | delivering the same message twice equals delivering it once |
| Chat.UnreadIdsAppend | src/components/chat/Chat.tsx:61-63 | the selection keeps list order |
| Chat.UnreadIdsMembers | src/components/chat/Chat.tsx:61-63 | an id is selected iff some unread message from someone else carries it |
| Chat.UnreadIds | src/components/chat/Chat.tsx:61-63 | at most one id per message |
| Chat.MarkReadRequest | src/components/chat/Chat.tsx:59-65 | no update without a user or with nothing to mark; otherwise the unread ids |
| Chat.SenderRole | src/components/chat/Chat.tsx:158 | the account's role, or `client` when it has none |
| Chat.ChatView.AddOrUpdateMessage | src/components/chat/Chat.tsx:21-29 | the `findIndex` loop leaves the list equal to the upsert |
| Chat.ChatView.SendMessage | src/components/chat/Chat.tsx:146-169 | nothing happens on blank text or no user; otherwise the trimmed text is sent with the role, and a saved row clears the input and is upserted |
| NotificationRows.FromLegacy | src/store/notificationStore.ts:193-207 | read iff `is_read`, with `read_at` set iff read; missing content becomes `""` |
| NotificationRows.FromLegacyRows | src/store/notificationStore.ts:193-207 | every legacy row is mapped, in order |
| NotificationRows.DisplayName | src/store/notificationStore.ts:293-298 | the trimmed join of the given names when it is non-empty, and `Utilisateur` exactly when it is empty; never empty |
| NotificationRows.DisplayNameCases | src/store/notificationStore.ts:293-298 | the name for each combination of first and last name present or missing, including `Utilisateur` when the only given name, or both, are blank |
| NotificationRows.DisplayLocation | src/store/notificationStore.ts:299-301 | the given city and country joined by `, `, or `""` |
| NotificationRows.FromProfile | src/store/notificationStore.ts:293-303 | the user keeps the profile's id and date, with that name and location |
| NotificationRows.ReplaceById | src/store/notificationStore.ts:451-455 | entries with the id become the saved row; the length and every other entry are unchanged |
| NotificationRows.ReplaceByIdIdempotent | src/store/notificationStore.ts:451-455 | replacing twice is replacing once |
| NotificationRows.RemoveByIdMembers | src/store/notificationStore.ts:476-478 | a row remains iff it was there and has another id |
| NotificationRows.RemoveById | src/store/notificationStore.ts:476-478 | no row with the deleted id remains, and the list does not grow |
| NotificationRows.RemoveByIdAppend | src/store/notificationStore.ts:476-478 | the filter keeps the order of the rest |
| NotificationRows.RemoveByIdAbsent | src/store/notificationStore.ts:476-478 | with no row of that id, nothing changes |
| NotificationRows.RemoveByIdIdempotent | src/store/notificationStore.ts:476-478 | deleting twice is deleting once |
| NotificationRows.DeliveryRows | src/store/notificationStore.ts:492-496 | exactly one unread row per user id, in order |
| NotificationRows.MarkSent | src/store/notificationStore.ts:510-514 | only the notifications with the id become `sent` |
| NotificationRows.MarkRead | src/store/notificationStore.ts:551-561 | only the delivery with the id becomes read at `now` |
| NotificationRows.MarkReadIdempotent | src/store/notificationStore.ts:551-561 | marking twice is marking once |
| NotificationRetry.InitialTryOrder | src/store/notificationStore.ts:323-328 | the candidates end with `info` and `new_message`, and start with the payload's type when it has one |
| NotificationRetry.Retry | src/store/notificationStore.ts:347-373 | a retry deletes only the column the error names, or switches only to an allowed type different from the current one; a success or any other error stops the loop |
| NotificationRetry.Settle | src/store/notificationStore.ts:374-376 | an accepted answer is saved, and a rejected one is thrown |
| NotificationRetry.AttemptsShape | src/store/notificationStore.ts:339-376 | at most five requests, the first with the original payload; the outcome is the settlement of the last answer |
| NotificationRetry.OtherFailureRethrown | src/store/notificationStore.ts:372-373 | an unrecognised error is thrown after one request |
| NotificationRetry.TypeFallbackNeverTaken | src/store/notificationStore.ts:323-373 | with a type in the payload and a type-check violation as the first answer, the error is thrown after that one request: the first shift yields the current type, so no fallback type is tried |
| NotificationRetry.TypeFallbackAfterDeletion | src/store/notificationStore.ts:323-373 | with a typed payload, a missing `type` column deletes it; the next violation shifts the old type back in and a further one sends `info`, so the fallback does fire |
| NotificationRetry.TypeFallbackWithoutType | src/store/notificationStore.ts:323-370 | without a type, a violation makes the second request carry type `info` |
| NotificationRetry.SkippingFallsBackToInfo | src/store/notificationStore.ts:323-338 | a loop that skips candidates equal to the current type would send `info` second |
| NotificationRetry.HandleRejection | src/store/notificationStore.ts:347-373 | one failed iteration deletes the named column, or shifts one candidate and switches to it when it is set, differs from the current type and is allowed, exactly as the retry step of the specification |
| NotificationRetry.RetryLoop | src/store/notificationStore.ts:339-376 | the while loop sends and ends exactly as the specification of the attempts: at most five requests, the outcome the last answer |
| NotificationRetry.WriteWithRetry | src/store/notificationStore.ts:319-376 | the try order built from the payload, then the loop: the write the store's create and update run |
| NotificationStore.DeliveriesRead | src/store/notificationStore.ts:158-214 | primary rows or a foreign error are kept; only a missing-table error reads the legacy table, whose rows are mapped or whose error is thrown |
| NotificationStore.PublicUsersRead | src/store/notificationStore.ts:222-308 | the same for recipients, with the profiles mapped one to one when `public_users` is missing |
| NotificationStore.LegacyFallbackMapsEveryRow | src/store/notificationStore.ts:193-207 | the fallback shows every legacy row as a delivery of itself |
| NotificationStore.CreateThenDeleteRestores | src/store/notificationStore.ts:476-478 | deleting a newly created row restores the list |
| NotificationStore.MarkSentIdempotent | src/store/notificationStore.ts:510-514 | a second send changes nothing more |
| NotificationStore.Store.FetchUserNotifications | src/store/notificationStore.ts:158-220 | the deliveries become the rows read, or the list stays and the error is kept |
| NotificationStore.Store.FetchPublicUsers | src/store/notificationStore.ts:222-314 | the recipients become the rows read, or the list stays and the error is kept |
| NotificationStore.Store.CreateNotification | src/store/notificationStore.ts:316-390 | a saved row goes first in the list and is returned; a throw keeps the list and records the error |
| NotificationStore.Store.UpdateNotification | src/store/notificationStore.ts:392-464 | a saved row replaces the entries with the id; a throw keeps the list and records the error |
| NotificationStore.Store.DeleteNotification | src/store/notificationStore.ts:466-487 | success removes the entries with the id; an error keeps the list |
| NotificationStore.Store.SendNotification | src/store/notificationStore.ts:489-523 | one unread delivery row per user is inserted; on success the notification is marked sent |
| NotificationStore.Store.MarkAsRead | src/store/notificationStore.ts:525-570 | a missing-table error falls back to the legacy update; on success only that delivery is read |
| PackageStore.ArchiveSweep | src/store/packageStore.ts:25-33 | rows keep their order; a package ends archived iff it was archived or should be |
| PackageStore.ArchivedIffOldPickedUp | src/store/packageStore.ts:141-151 | an unarchived package is archived iff it is picked up and at least 1,296,000,000 ms (15 days) old |
| PackageStore.ArchiveSweepIdempotent | src/store/packageStore.ts:25-33 | sweeping twice is sweeping once |
| PackageStore.ClientIds | src/store/packageStore.ts:56-58 | every non-empty client id, each once |
| PackageStore.OrNull | src/store/packageStore.ts:82-85 | `x \|\| null`: empty text becomes null |
| PackageStore.ProfilesMap | src/store/packageStore.ts:76-88 | one entry per profile id; each id maps to the client of the last row that carries it |
| PackageStore.BucketMembers | src/store/packageStore.ts:103-110 | a package's bucket holds exactly its photo rows |
| PackageStore.BucketAppend | src/store/packageStore.ts:103-110 | buckets keep the order of the rows |
| PackageStore.GroupPhotos | src/store/packageStore.ts:97-112 | the loop yields a bucket for each package with a photo, and the bucket is all its rows in order |
| PackageStore.NoPhotoEmptyBucket | src/store/packageStore.ts:119 | a package with no photo has an empty list |
| PackageStore.PhotoOf | src/store/packageStore.ts:120-124 | the URL is null iff the cloud name is empty, and otherwise normalised |
| PackageStore.WithClient | src/store/packageStore.ts:118-136 | same length and order as the data; each package gets its client's profile or the all-null client, and its photos |
| PackageStore.NotProfiled | src/store/packageStore.ts:127-133 | a client id absent from the profiles has no entry, so it gets the all-null client |
| PackageStore.Store.FetchPackages | src/store/packageStore.ts:22-139 | an error is kept; empty data gives `[]`; otherwise the packages with clients and photos |
| NotificationSend.Without | src/components/admin/NotificationSend.tsx:115 | exactly the other elements remain, still without repetition; an absent id changes nothing |
| NotificationSend.WithoutAppend | src/components/admin/NotificationSend.tsx:115 | deleting keeps the order of what remains, run by run |
| NotificationSend.WithoutRemovesAt | src/components/admin/NotificationSend.tsx:115 | in a set, deleting an id takes out its one entry and leaves the rest in order |
| NotificationSend.ToggleFlipsOnly | src/components/admin/NotificationSend.tsx:112-120 | toggling flips the membership of that id and of no other |
| NotificationSend.Toggled | src/components/admin/NotificationSend.tsx:112-120 | a selection without repetition stays without repetition |
| NotificationSend.ToggleTwice | src/components/admin/NotificationSend.tsx:112-120 | toggling twice restores membership, and the very sequence when the id was not selected |
| NotificationSend.SetOf | src/components/admin/NotificationSend.tsx:126 | each id once, with the same members |
| NotificationSend.SelectAllResult | src/components/admin/NotificationSend.tsx:122-128 | empty when the sizes match, otherwise exactly the page's ids |
| NotificationSend.SelectAllComparesSizes | src/components/admin/NotificationSend.tsx:122-128 | a same-size selection from another page is cleared |
| NotificationSend.TotalPages | src/components/admin/NotificationSend.tsx:167 | the ceiling of n / 10 |
| NotificationSend.PageBounds | src/components/admin/NotificationSend.tsx:168-172 | at most ten users, from `(page − 1) · 10` |
| NotificationSend.PageOf | src/components/admin/NotificationSend.tsx:169-172 | a page is never longer than the list |
| NotificationSend.RangeMatchesPage | src/components/admin/NotificationSend.tsx:552-554 | on an existing page, the label's range counts the users shown |
| NotificationSend.PagesCoverList | src/components/admin/NotificationSend.tsx:168-172 | the first k pages are the list's first 10k users |
| NotificationSend.AllPagesAreTheList | src/components/admin/NotificationSend.tsx:167-172 | all pages together are the list |
| NotificationSend.PreviousPage | src/components/admin/NotificationSend.tsx:559 | never below page 1 |
| NotificationSend.NextPage | src/components/admin/NotificationSend.tsx:567 | never beyond the last page |
| NotificationSend.SendView.SelectUser | src/components/admin/NotificationSend.tsx:112-120 | the selection becomes the toggle, still a set |
| NotificationSend.SendView.SelectAll | src/components/admin/NotificationSend.tsx:122-128 | the selection becomes the select-all result |
| NotificationSend.SendView.PreviousClicked | src/components/admin/NotificationSend.tsx:559 | the page moves back, not below 1 |
| NotificationSend.SendView.NextClicked | src/components/admin/NotificationSend.tsx:567 | the page moves on, not past the last |
| NotificationSend.SendView.Send | src/components/admin/NotificationSend.tsx:130-159 | an empty selection alerts and makes no call; otherwise the store is called iff confirmed, and its answer picks the alert and the navigation |
| NotificationSend.ConfirmText | src/components/admin/NotificationSend.tsx:137-139 | the confirmation text is longer than the recipient count it spells out |
| NotificationForm.InsertFormatting | src/components/admin/NotificationForm.tsx:138-159 | text before and after the selection is unchanged; the selection is wrapped by `before` and `after`; the selection shifts by `before` |
| NotificationForm.SelectionFollowsText | src/components/admin/NotificationForm.tsx:157 | the new selection covers the same text |
| NotificationForm.EmptyWrappingKeepsText | src/components/admin/NotificationForm.tsx:145-150 | wrapping in nothing changes nothing |
| NotificationForm.PlanSave | src/components/admin/NotificationForm.tsx:82-129 | refused iff a field is empty; failing without a user; an update iff there is an id, and a create otherwise |
| NotificationForm.AutoSaveNeverRefusedNorAlerts | src/components/admin/NotificationForm.tsx:68-129 | the auto-save never hits the refusal and never alerts |
| NotificationForm.LoadedExpiry | src/components/admin/NotificationForm.tsx:58 | at most the first 16 characters of the stored expiry |
| AdminDashboard.WithArchived | src/components/admin/AdminDashboard.tsx:31-32 | each filter keeps only packages of its kind |
| AdminDashboard.PartitionSizes | src/components/admin/AdminDashboard.tsx:31-32 | the active and archived lists sum to the total |
| AdminDashboard.PartitionMembers | src/components/admin/AdminDashboard.tsx:31-32 | a package is active iff unarchived, and archived iff archived |
| AdminDashboard.WithArchivedAppend | src/components/admin/AdminDashboard.tsx:31-32 | the filters preserve order |
| AdminDashboard.StatsOf | src/components/admin/AdminDashboard.tsx:33-42 | the total and each per-status count are over the active packages |
| AdminDashboard.CountsSumToLength | src/components/admin/AdminDashboard.tsx:35-41 | the five counts sum to the length |
| AdminDashboard.CountStatus | src/components/admin/AdminDashboard.tsx:35-41 | a status count never exceeds the number of packages |
| AdminDashboard.StatsAddUp | src/components/admin/AdminDashboard.tsx:33-42 | the five stats sum to `stats.total` |
| ClientNotifications.Filtered | src/components/notifications/ClientNotifications.tsx:70-74 | the filter keeps only what the tab shows |
| ClientNotifications.FilteredMembers | src/components/notifications/ClientNotifications.tsx:70-74 | a delivery is kept iff the tab shows it |
| ClientNotifications.AllShowsEverything | src/components/notifications/ClientNotifications.tsx:73 | `all` keeps the whole list |
| ClientNotifications.FilteredAppend | src/components/notifications/ClientNotifications.tsx:70-74 | filtering preserves order |
| ClientNotifications.HeaderUnread | src/components/notifications/ClientNotifications.tsx:179-195 | the header's unread count is the tab's |
| ClientNotifications.TabCountsAddUp | src/components/notifications/ClientNotifications.tsx:189-202 | unread + read + deleted = all, so unread + read ≤ all |
| ClientNotifications.TabCount | src/components/notifications/ClientNotifications.tsx:189-202 | a tab's count never exceeds the number of notifications |
| ClientNotifications.UnreadReadDeleted | src/components/notifications/ClientNotifications.tsx:189-202 | the three statuses partition the list |
| PwaStore.Apply | src/store/pwaStore.ts:19-21 | set changes only the prompt; show sets the flag and keeps the prompt; clear gives the initial state |
| PwaStore.ClearIdempotent | src/store/pwaStore.ts:21 | clearing twice is clearing once |
| PwaStore.ClearForgets | src/store/pwaStore.ts:17-21 | after a clear, nothing earlier matters |
| PwaStore.SetAndShowCommute | src/store/pwaStore.ts:19-20 | set and show commute |
| PwaStore.Store.constructor | src/store/pwaStore.ts:17-18 | no deferred prompt and not shown |
| PwaStore.Store.SetDeferredPromptTo | src/store/pwaStore.ts:19 | the new state is the set action applied |
| PwaStore.Store.RequestShowPrompt | src/store/pwaStore.ts:20 | the new state is the show action applied |
| PwaStore.Store.ClearPrompt | src/store/pwaStore.ts:21 | the new state is the clear action applied |

## Left out

- Database I/O: queries, inserts, updates, auth and realtime channels are parameters. The answers arrive as values, and the filters of the queries (`eq`, `in`, `order`, search terms) are not modelled.
- `fetchNotifications`: it only sets the list to the rows of a filtered query.
- `subscribeToNotifications`: a realtime channel, with no logic of its own.
- `fetchPackage`, `createPackage`, `updatePackage`, `deletePackage` and `archiveOldPickedUpPackages`: each is one database call that sets the result.
- The archive sweep in `fetchPackages`: it is a database update. `ArchiveSweep` models its effect on the rows, and `FetchPackages` takes the rows read after it.
- The status update in `sendNotification`: its answer is ignored by the source and is not modelled.
- `markAsRead` reads the clock twice. The model uses one `now` for both reads.
- The retry loop matches its error messages with regular expressions. The model takes the result of that matching as a `Failure` value. The missing-table checks of the reads use `includes`, which is modelled.
- `null` data read as empty (`data || []`) is modelled by passing an empty sequence.
- Timers, auto-save scheduling, visibility listeners and scrolling are not modelled. `NotificationForm.AutoSaveNeverRefusedNorAlerts` states what the timer calls.
- JSX rendering, routing, layout, locale formatting (`toLocaleDateString`, `Intl`), floating-point filters and relative dates are not modelled.
- `NotificationBell.tsx` calls store members that do not exist and is not part of this model.
- The photo upload (`PhotoUpload.tsx`) is not part of this model.
- The browser's install-prompt event is opaque: only its identity is kept.
- `FormatDateFR` takes the local date fields as integers. The conversion from a `Date` to local time is not modelled.
- Lengths are counted in characters, which equal UTF-16 code units for text in the Basic Multilingual Plane. This covers the 160 cap in `Truncate`, the selection indices in `InsertFormatting` and `substring` in `LoadedExpiry`. The password length uses UTF-16 units.
- `EncodeURIComponent` never throws: Dafny strings hold no lone surrogates, the input on which the standard throws.
- RegisterForm: the validation flags that the component keeps in state and recomputes in effects (`emailValid`, `passwordStrength`, `passwordErrors`, `passwordValid`, `confirmPasswordValid`) are functions of the current inputs. The render between an input change and its effect is not modelled. The outcome of `signUp` is a parameter of `Submit`.
- Password strength is counted in eighths (12.5 = 1, 25 = 2), so that 100 is 8.
