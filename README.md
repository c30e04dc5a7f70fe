# Verified model of the Natti practice platform core

A Dafny model of the logic of the language-practice platform. It has two parts.

The Cloud Function `onQuestionDetailWrite` fills in missing audio:
- A question document (an introduction plus dialog turns, each with an original text and a translation) is written.
- For each text field that is set while its audio field is empty, the function synthesises MP3 speech.
- It stores the file under `auto_audio/{docId}/...` and makes the file public.
- It merges the public URLs back into the document.

The client side is modelled too:
- the admin form, which validates, numbers, saves and merges generated audio;
- the dialog list editor;
- the global loading counter;
- the audio uploader, with its checks and file-name sanitisation;
- the auth error messages and registration;
- the role collection;
- the auth provider's event handler;
- the avatar's name helpers and dropdown.

Modelling conventions:
- A JavaScript string is a Dafny `string`. An absent, `null` or empty string field is `""`. Truthiness of a string is "non-empty".
- `String.prototype.trim` uses the ECMAScript whitespace set.
- Lengths that JavaScript counts in UTF-16 code units are computed with `Utf16Length`.
- Everything that happens outside the code is a parameter:
  - the speech API, storage uploads, `makePublic`, Firestore queries and writes, and Firebase Auth;
  - `Date.now()` readings.
- The Cloud Function's effects are one oracle, `world: string -> CallEffects`. It gives, per storage path, whether the speech call, the upload and `makePublic` succeed. The handler's paths are pairwise distinct (`AudioPathsDistinct`), so keying by path loses nothing.
- The handler itself is a method, `TtsTrigger.OnQuestionDetailWrite`. Its result equals the specification function `TtsTrigger.Handle`. It also returns the list of `synthesizeToStorage` calls it made.
- Classes model the state the source updates in place: the form, the dialog editor, the loading provider, the uploader, the role collection, the auth provider and the avatar menu.

Files, one module each: `wrappers.dfy`, `js_strings.dfy`, `uri_encoding.dfy`, `question_content.dfy`, `tts_trigger.dfy`, `tts_trigger_properties.dfy`, `question_manager.dfy`, `dialog_manager.dfy`, `loading_context.dfy`, `audio_upload.dfy`, `auth_service.dfy`, `user_role_service.dfy`, `auth_context.dfy`, `user_avatar.dfy`.

## Model

| member | source | states |
|---|---|---|
| JsStrings.BlankIffAllWhitespace | functions/index.js:13 | `!text.trim()` holds exactly when every character is JavaScript whitespace |
| JsStrings.Trim | functions/index.js:13 | `trim()`: drops the ECMAScript white space and line terminators at both ends (`TrimStartKeepsNonBlank` says what it keeps) |
| JsStrings.IsBlank | functions/index.js:13 | `!text.trim()`: the trimmed text is empty; `BlankIffAllWhitespace` characterises it |
| JsStrings.Utf16Length | src/components/Admin/AudioUpload.jsx:46 | a string's UTF-16 length lies between its character count and twice that |
| JsStrings.NatToString | functions/index.js:63 | the decimal rendering of a number is non-empty and all digits |
| JsStrings.ParseNatToString | functions/index.js:63 | reading back the decimal rendering of a number gives the number |
| JsStrings.NatToStringInjective | functions/index.js:63 | distinct numbers render differently |
| JsStrings.DigitsThenSuffix | src/components/Admin/AudioUpload.jsx:47 | digits followed by a text starting with `_` split in exactly one way |
| JsStrings.SliceLast | src/components/Admin/QuestionManager.jsx:185 | `slice(-k)` is the last k characters, or the whole string when it is shorter |
| JsStrings.PadStart | src/components/Admin/QuestionManager.jsx:185 | `padStart(n, fill)` ends with the input and fills only the front, up to length n |
| JsStrings.BeforeFirst | src/components/UserAvatar/UserAvatar.jsx:46 | `split(sep)[0]` is the longest prefix without `sep`, stopping at the first `sep` |
| JsStrings.UpperAscii | src/components/UserAvatar/UserAvatar.jsx:41 | upper-casing maps `a`-`z` to `A`-`Z` and leaves every other character |
| UriEncoding.Utf8 | functions/index.js:39 | a character encodes to 1-4 bytes, one byte exactly for ASCII, and only bytes >= 0x80 otherwise |
| UriEncoding.DecodeEncode | functions/index.js:39 | percent-decoding `encodeURIComponent(s)` gives back the UTF-8 bytes of s |
| UriEncoding.EncodedCharsOnly | functions/index.js:39 | the encoding holds only unreserved characters, `%` and upper-case hex digits, so it has no `/` |
| UriEncoding.UnreservedUnchanged | functions/index.js:39 | a string made of unreserved characters is encoded to itself |
| UriEncoding.EncodeUriComponent | functions/index.js:39 | `encodeURIComponent`: unreserved characters unchanged, every other one as `%XX` escapes of its UTF-8 bytes; `DecodeEncode` is its inverse |
| QuestionContent.WithField | src/components/Admin/DialogManager.jsx:24 | `{...d, [field]: value}` sets that field and leaves every other field, the id and the extra fields |
| TtsTrigger.SynthesizeToStorage | functions/index.js:12-41 | blank text gives null before any call; a thrown speech or upload error rejects; otherwise the gs:// and public URLs of the path come back |
| TtsTrigger.AudioPath | functions/index.js:53-67 | the storage path `auto_audio/{docId}/introduction.mp3`, or `dialog_{idx+1}_original.mp3` / `_translation.mp3`; `AudioPathsDistinct` proves them distinct |
| TtsTrigger.Tasks | functions/index.js:52-74 | the completion policy: the introduction call when it is set and has no audio, then per dialog in index order the original and the translation calls whose audio is empty; `DialogTasksMembers`, `DialogTaskSlots` and `FailureRejects` state it |
| TtsTrigger.Merge | functions/index.js:77-79 | `set(updates, { merge: true })`: fields present in the updates replace the stored ones, all others stay; `FixedPoint` and `Converges` use it |
| TtsTrigger.Handle | functions/index.js:45-81 | the handler as a function: a deleted document is ignored, any thrown call rejects, otherwise the updates are the new introduction URL and the rebuilt dialogs; `OnQuestionDetailWrite` is proved equal to it |
| TtsTrigger.RebuildDialog | functions/index.js:60-73 | the rebuild of one dialog rejects exactly when its original-text call or its translation call throws |
| TtsTrigger.RebuildDialogSpec | functions/index.js:60-73 | a rebuilt dialog keeps id, texts and extra fields; an audio field changes exactly when it was empty and its text is not blank, and then becomes the public URL of its own path |
| TtsTrigger.RebuildDialogs | functions/index.js:59-74 | the rebuilt list has the input's length |
| TtsTrigger.RebuildDialogsStep | functions/index.js:59-74 | rebuilding one more dialog extends the rebuilt list by that dialog, in index order |
| TtsTrigger.RebuildDialogAt | functions/index.js:60-73 | the `map` callback computes `RebuildDialog` and makes exactly the calls of that dialog's tasks, up to the first that throws |
| TtsTrigger.RebuildAllDialogs | functions/index.js:58-76 | the loop over the dialogs computes `RebuildDialogs` and makes the dialog tasks' calls in order, up to the first that throws |
| TtsTrigger.OnQuestionDetailWrite | functions/index.js:45-81 | a deleted document is ignored with no call; otherwise the outcome is `Handle` and the calls made are the task list up to the first that throws |
| TtsTriggerProperties.AudioPathsDistinct | functions/index.js:53-68 | the introduction, original and translation paths of one document are pairwise distinct across fields and indices |
| TtsTriggerProperties.AudioFileNamesDistinct | functions/index.js:53-68 | distinct audio slots have distinct file names |
| TtsTriggerProperties.PublicUrlDecodes | functions/index.js:39-40 | the public URL is the bucket address followed by one segment, with no `/`, that percent-decodes to the path's UTF-8 bytes |
| TtsTriggerProperties.MakePublicFailureIgnored | functions/index.js:38 | a failing `makePublic` gives the same result as a succeeding one |
| TtsTriggerProperties.SpeechRequestDefaults | functions/index.js:14-22 | model and voice default to `gpt-4o-mini-tts` and `alloy`; the input is the text and the format mp3 |
| TtsTriggerProperties.DialogTasksMembers | functions/index.js:59-74 | a call belongs to the dialogs' calls iff it is one of the calls for some dialog index |
| TtsTriggerProperties.DialogTaskSlots | functions/index.js:60-71 | each call for dialog i targets its original slot with the original text, or its translation slot with the translation, at that slot's own path |
| TtsTriggerProperties.NoSpeechForBlankCalls | functions/index.js:13 | no request reaches the speech API iff every call made had blank text |
| TtsTriggerProperties.IntroductionCall | functions/index.js:52-54 | an introduction call is made iff the introduction is set and its audio is empty; the speech API hears of it iff the text is also not blank |
| TtsTriggerProperties.IntroductionUpdate | functions/index.js:52-56 | `introductionAudio` is in the updates iff newly produced, and then it is the public URL of `auto_audio/{docId}/introduction.mp3` |
| TtsTriggerProperties.NonDestructiveDialogs | functions/index.js:58-76 | `dialogs` is updated iff it was an array; length, order, ids, texts and extra fields are kept; a non-empty audio field is never overwritten; a changed one becomes the public URL of its own path |
| TtsTriggerProperties.WriteWheneverDialogsArray | functions/index.js:75-80 | the merge write happens iff `dialogs` is an array or a new introduction URL exists |
| TtsTriggerProperties.DialogsRejectIff | functions/index.js:59-74 | the dialog rebuild rejects iff some dialog task throws |
| TtsTriggerProperties.FailureRejects | functions/index.js:54-74 | the handler rejects iff some task of the document throws |
| TtsTriggerProperties.RejectedWritesNothing | functions/index.js:59-80 | a rejected run writes nothing, and its last call made is one that threw |
| TtsTriggerProperties.FixedPoint | functions/index.js:52-80 | when every non-blank text already has audio, no speech request is made, the run finishes, and the merged document equals the input, whatever the world does |
| TtsTriggerProperties.FinishedRunVoicesAll | functions/index.js:52-76 | after a finished run, every non-blank text of the merged document has audio |
| TtsTriggerProperties.Converges | functions/index.js:43-81 | the re-run triggered by a finished run's write makes no speech request and writes the document back unchanged |
| QuestionManager.ValidationError | src/components/Admin/QuestionManager.jsx:143-151 | a blank title gives 'Question title is required'; otherwise a blank introduction gives 'Introduction is required'; otherwise the form passes |
| QuestionManager.QuestionNumberShape | src/components/Admin/QuestionManager.jsx:185 | the question number has length 4: the id's last four characters, or the id behind leading `0`s |
| QuestionManager.QuestionNumber | src/components/Admin/QuestionManager.jsx:185 | `id.slice(-4).padStart(4, '0')`; `QuestionNumberShape` states its shape |
| QuestionManager.Payload | src/components/Admin/QuestionManager.jsx:107-111 | `docId` is absent exactly when creating; the dialogs map one-to-one, in order, to id, original text and translation |
| QuestionManager.FirstIndexById | src/components/Admin/QuestionManager.jsx:121 | `find` picks the first reply entry with the id, or none when no entry has it |
| QuestionManager.MergeGenerated | src/components/Admin/QuestionManager.jsx:119-129 | each dialog takes the non-empty audio URLs of the first reply entry with its id; `MergeGeneratedSpec` states it both ways |
| QuestionManager.FormAfterReply | src/components/Admin/QuestionManager.jsx:115-117 | the form takes the reply's `introductionAudio` when it is set; `FormAfterReplySpec` states it |
| QuestionManager.MergeGeneratedSpec | src/components/Admin/QuestionManager.jsx:119-129 | merging keeps count, order, ids, texts and extra fields; an unmatched dialog is unchanged; each audio field becomes the non-empty value of the first entry with that id, and stays as it was when that entry's value is empty or no entry matches |
| QuestionManager.MergeGeneratedIdempotent | src/components/Admin/QuestionManager.jsx:119-129 | merging the same reply twice is merging it once |
| QuestionManager.FormAfterReplySpec | src/components/Admin/QuestionManager.jsx:115-117 | only `introductionAudio` of the form changes, and only to the reply's non-empty value |
| QuestionManager.PayloadStableUnderReply | src/components/Admin/QuestionManager.jsx:107-129 | merging a reply never changes the next generate request |
| QuestionManager.SaveCalls | src/components/Admin/QuestionManager.jsx:157-202 | the store calls of a save in order: the question write, then the detail lookup and the detail update or add; `SaveUpserts` states them |
| QuestionManager.SaveUpserts | src/components/Admin/QuestionManager.jsx:157-202 | a save updates the question when editing and adds one otherwise; then it looks up the detail and updates it by its own id when found, or adds it; the detail carries the question id, its `QuestionNumber`, the form's title, category, introduction and introduction audio, and the dialogs; a failed question write stops after one call |
| QuestionManager.QuestionEditor.constructor | src/components/Admin/QuestionManager.jsx:18-29 | the form starts empty in the `housing` category, with no dialogs, no error, and not loading |
| QuestionManager.QuestionEditor.ResetForm | src/components/Admin/QuestionManager.jsx:79-89 | the form returns to its empty state, with no dialogs and no error |
| QuestionManager.QuestionEditor.HandleGenerateAudio | src/components/Admin/QuestionManager.jsx:102-138 | sends `Payload` of the state before; a thrown call sets 'Failed to generate audio. Please try again.' and keeps form and dialogs; a reply is merged into form and dialogs; `ttsGenerating` ends false |
| QuestionManager.QuestionEditor.HandleSubmit | src/components/Admin/QuestionManager.jsx:140-213 | a validation error is shown with no store call; otherwise the store calls are `SaveCalls`, it navigates iff both writes succeed, otherwise 'Failed to save question. Please try again.', and loading ends false |
| DialogManager.Appended | src/components/Admin/DialogManager.jsx:8-17 | adding appends one dialog at the end, with id `dialog_{now}` and the four texts empty; the prior dialogs are unchanged |
| DialogManager.UpdatedSpec | src/components/Admin/DialogManager.jsx:21-28 | only the named field of the dialogs with the id changes; length, order and the other dialogs stay; a missing id gives an equal list |
| DialogManager.Updated | src/components/Admin/DialogManager.jsx:21-28 | the `map` that sets one field of the dialogs with the id; `UpdatedSpec` states it |
| DialogManager.Removed | src/components/Admin/DialogManager.jsx:30-31 | no remaining dialog has the removed id, and the list does not grow |
| DialogManager.RemovedConcat | src/components/Admin/DialogManager.jsx:31 | the filter distributes over concatenation, so the relative order of the rest is kept |
| DialogManager.RemovedKeepsOthers | src/components/Admin/DialogManager.jsx:31 | every dialog with another id survives, and nothing new appears |
| DialogManager.RemovedAbsent | src/components/Admin/DialogManager.jsx:31 | removing an id no dialog has gives an equal list |
| DialogManager.RemoveAfterAppend | src/components/Admin/DialogManager.jsx:8-34 | removing a freshly added dialog, whose id was not present, restores the list |
| DialogManager.ToggledTwice | src/components/Admin/DialogManager.jsx:36-38 | toggling gives null when the id was expanded and the id otherwise; toggling twice leaves only that id or nothing |
| DialogManager.Toggled | src/components/Admin/DialogManager.jsx:36-38 | the expanded id becomes null when it was this id and this id otherwise; `ToggledTwice` is its partner |
| DialogManager.DialogList.constructor | src/components/Admin/DialogManager.jsx:5-6 | the list is the given dialogs and nothing is expanded |
| DialogManager.DialogList.AddNewDialog | src/components/Admin/DialogManager.jsx:8-19 | the list becomes `Appended`, and the new dialog's id is the expanded one |
| DialogManager.DialogList.UpdateDialog | src/components/Admin/DialogManager.jsx:21-28 | the list becomes `Updated`; the expanded id is kept |
| DialogManager.DialogList.RemoveDialog | src/components/Admin/DialogManager.jsx:30-34 | the list becomes `Removed`, and nothing is expanded |
| DialogManager.DialogList.ToggleExpanded | src/components/Admin/DialogManager.jsx:36-38 | the expanded id becomes `Toggled`; the list is unchanged |
| DialogManager.DialogList.HandleAudioUpload | src/components/Admin/DialogManager.jsx:40-42 | an upload's URL is set through `updateDialog` on exactly that audio field |
| LoadingContext.Stopped | src/contexts/LoadingContext.jsx:21-24 | `stop` decrements by one, but at 0 stays 0 |
| LoadingContext.Repeat | src/contexts/LoadingContext.jsx:16-24 | a run of n identical calls has length n |
| LoadingContext.RunConcat | src/contexts/LoadingContext.jsx:16-24 | running two call sequences one after the other is running their concatenation |
| LoadingContext.StartsThenStopsRestore | src/contexts/LoadingContext.jsx:16-24 | n starts followed by n stops return the counter to its initial value |
| LoadingContext.StopAtZeroAbsorbed | src/contexts/LoadingContext.jsx:21-24 | a stop at 0 leaves 0, and a later start is not undone by it |
| LoadingContext.LoadingProvider.constructor | src/contexts/LoadingContext.jsx:12-14 | the counter starts at 0, matching the rendered count |
| LoadingContext.LoadingProvider.IsLoading | src/contexts/LoadingContext.jsx:13 | `isLoading` is `loadingCount > 0`; `StopAtZeroAbsorbed` and `StartsThenStopsRestore` use it |
| LoadingContext.LoadingProvider.Start | src/contexts/LoadingContext.jsx:16-19 | the counter goes up by exactly 1, and the rendered count follows |
| LoadingContext.LoadingProvider.Stop | src/contexts/LoadingContext.jsx:21-24 | the counter goes down by one, never below 0, and the rendered count follows |
| LoadingContext.LoadingProvider.WithLoading | src/contexts/LoadingContext.jsx:26-33 | passes `fn`'s result or error through, is loading while `fn` runs, and restores the counter either way |
| AudioUpload.SelectionError | src/components/Admin/AudioUpload.jsx:22-32 | a non-`audio/` type gives 'Please select an audio file', checked before size; over 10485760 bytes gives 'File size must be less than 10MB'; anything else passes |
| AudioUpload.SizeLimitBoundary | src/components/Admin/AudioUpload.jsx:29-32 | exactly 10485760 bytes passes, and one byte more does not |
| AudioUpload.CleanChar | src/components/Admin/AudioUpload.jsx:46 | a character is replaced by one `_` per UTF-16 code unit unless it is in `[a-zA-Z0-9.-]` |
| AudioUpload.CleanFileName | src/components/Admin/AudioUpload.jsx:46 | the `replace(/[^a-zA-Z0-9.-]/g, '_')` over the whole name; `CleanLengthAndAlphabet`, `CleanInPlace` and `CleanIdempotent` state it |
| AudioUpload.CleanConcat | src/components/Admin/AudioUpload.jsx:46 | cleaning works character by character, so it distributes over concatenation |
| AudioUpload.CleanLengthAndAlphabet | src/components/Admin/AudioUpload.jsx:46 | the cleaned name has the input's UTF-16 length, and every character is in `[A-Za-z0-9._-]` |
| AudioUpload.CleanInPlace | src/components/Admin/AudioUpload.jsx:46 | at each UTF-16 offset the code units of a character become its cleaning, so allowed characters stay in place |
| AudioUpload.CleanIdempotent | src/components/Admin/AudioUpload.jsx:46 | cleaning a cleaned name changes nothing |
| AudioUpload.StoragePathInFolder | src/components/Admin/AudioUpload.jsx:45-47 | the path starts with the folder and a `/`, and has no further `/` |
| AudioUpload.StoragePath | src/components/Admin/AudioUpload.jsx:46-47 | `${folder}/${Date.now()}_${cleanFileName}`; `StoragePathInFolder` and `StoragePathParts` state its shape and injectivity |
| AudioUpload.StoragePathParts | src/components/Admin/AudioUpload.jsx:45-47 | the path lies directly in the folder, and equal paths mean equal timestamps and equal cleaned names |
| AudioUpload.ResultFor | src/components/Admin/AudioUpload.jsx:72-79 | the completion payload carries the URL, the original file name, the storage path, the size and the type |
| AudioUpload.OutcomeError | src/components/Admin/AudioUpload.jsx:59-91 | the error message after an upload is empty iff it completed |
| AudioUpload.AudioUploader.constructor | src/components/Admin/AudioUpload.jsx:6-16 | not uploading, progress 0, no error and no file name, with the given folder and callback |
| AudioUpload.AudioUploader.HandleFileSelect | src/components/Admin/AudioUpload.jsx:18-37 | no file changes nothing; a refused file sets the message and starts no upload; a valid file records its name and is uploaded |
| AudioUpload.AudioUploader.UploadFile | src/components/Admin/AudioUpload.jsx:39-93 | uploads to `StoragePath`; a start or transfer failure gives 'Upload failed. Please try again.'; a URL failure gives 'Failed to get file URL'; completion sets progress 100 and notifies with `ResultFor`; uploading ends false |
| AudioUpload.AudioUploader.ResetUpload | src/components/Admin/AudioUpload.jsx:95-100 | name, progress, error and the uploading flag are cleared |
| AuthService.GetErrorMessage | src/firebase/authService.js:73-90 | the message is never empty |
| AuthService.ErrorMessageTable | src/firebase/authService.js:74-88 | the six known codes get their fixed messages; any other code gets `error.message`, or 'An unknown error occurred' when that is empty |
| AuthService.KnownMessagesDistinct | src/firebase/authService.js:75-88 | the six messages are pairwise distinct and differ from the generic one |
| AuthService.RegisterNamesOnlyWhenGiven | src/firebase/authService.js:23-40 | the profile is named exactly when the account was created and a name was given, and the returned user then carries that name |
| UserRoleService.FirstRecord | src/firebase/userRoleService.js:26-31 | the first record for the user, in query order |
| UserRoleService.RoleOf | src/firebase/userRoleService.js:24-35 | the first record's role, or 'user' when the user has no record |
| UserRoleService.WithRole | src/firebase/userRoleService.js:43-65 | the upsert: the first record of the user gets the role, or a new record is added; `WithRoleSpec` states it |
| UserRoleService.Seeded | src/firebase/userRoleService.js:79-98 | an admin record added only when the user has none; `SeededSpec` states it |
| UserRoleService.WithRoleSpec | src/firebase/userRoleService.js:43-65 | for a known user only the first record's role changes; for an unknown user exactly one record is appended; afterwards the lookup gives the new role, and other users' roles are unchanged |
| UserRoleService.SeededSpec | src/firebase/userRoleService.js:79-98 | seeding keeps the records as a prefix, adds an admin record only for a user with none, and is idempotent |
| UserRoleService.RoleStore.GetUserRole | src/firebase/userRoleService.js:24-40 | the first record's role, or 'user' when there is no record or the query fails |
| UserRoleService.RoleStore.IsUserAdmin | src/firebase/userRoleService.js:68-76 | true iff the looked-up role is 'admin' |
| UserRoleService.RoleStore.SetUserRole | src/firebase/userRoleService.js:43-65 | upserts as `WithRole`, or rethrows and leaves the records when the query or the write fails |
| UserRoleService.RoleStore.InitializeAdminUser | src/firebase/userRoleService.js:79-98 | seeds as `Seeded`, and never throws: a failure leaves the records |
| UserRoleService.RoleStore.constructor | src/firebase/userRoleService.js:15 | the `userRoles` collection holds the given records |
| AuthContext.RoleAfterEventSpec | src/contexts/AuthContext.jsx:22-45 | a sign-out clears the role; `admin@example.com` always gets 'admin'; anyone else gets the looked-up role, or 'user' |
| AuthContext.RecordsAfterEventSpec | src/contexts/AuthContext.jsx:31-35 | only the administrator's sign-in changes the role records, by at most one admin record for its uid; with a record already there or a failed seeding they stay unchanged |
| AuthContext.RoleAfterEvent | src/contexts/AuthContext.jsx:22-45 | the role the provider ends with after an auth event; `RoleAfterEventSpec` states it |
| AuthContext.RecordsAfterEvent | src/contexts/AuthContext.jsx:31-35 | the role records after an auth event: seeded only for the administrator's account; `RecordsAfterEventSpec` states it |
| AuthContext.AuthProvider.constructor | src/contexts/AuthContext.jsx:16-18 | the provider starts with no user, no role, and loading |
| AuthContext.AuthProvider.OnAuthChange | src/contexts/AuthContext.jsx:22-45 | records the user, sets `RoleAfterEvent`, seeds as `RecordsAfterEvent`, and ends with loading false; authentication follows the user, and a sign-out is never admin |
| AuthContext.AuthProvider.IsAuthenticated | src/contexts/AuthContext.jsx:55 | `!!user`; `OnAuthChange` ensures it holds iff a user signed in |
| AuthContext.AuthProvider.IsAdmin | src/contexts/AuthContext.jsx:56 | `userRole === 'admin'`; `OnAuthChange` ensures it is false after a sign-out |
| AuthContext.AuthProvider.RendersChildren | src/contexts/AuthContext.jsx:61 | children render once loading is over, which `OnAuthChange` ensures |
| UserAvatar.GetInitials | src/components/UserAvatar/UserAvatar.jsx:39-42 | the initial has one character: '?' for no name, otherwise the first character upper-cased |
| UserAvatar.GetDisplayName | src/components/UserAvatar/UserAvatar.jsx:45-47 | the display name is never empty |
| UserAvatar.DisplayNameChoice | src/components/UserAvatar/UserAvatar.jsx:45-47 | the profile name when set; otherwise the e-mail part before the first '@' when that is not empty; otherwise 'User' |
| UserAvatar.AvatarInitialFromName | src/components/UserAvatar/UserAvatar.jsx:64-66 | the avatar's initial always comes from the name shown, never from the '?' fallback |
| UserAvatar.AvatarMenu.HandleAvatarClick | src/components/UserAvatar/UserAvatar.jsx:12-18 | toggles the dropdown when authenticated; otherwise requests login and leaves it as is |
| UserAvatar.AvatarMenu.HandleLogout | src/components/UserAvatar/UserAvatar.jsx:20-27 | closes the dropdown only when logout succeeded |
| UserAvatar.AvatarMenu.HandleClickOutside | src/components/UserAvatar/UserAvatar.jsx:29-31 | closes the dropdown |
| UserAvatar.AvatarMenu.HandleAdminAccess | src/components/UserAvatar/UserAvatar.jsx:33-36 | navigates to `/admin` and closes the dropdown |
| UserAvatar.AvatarMenu.constructor | src/components/UserAvatar/UserAvatar.jsx:10 | the dropdown starts closed |

## Left out

- The external services are parameters, and their internals are not modelled: the speech API, the storage upload streams and their metadata, `makePublic`, the Firestore and Storage SDK calls, and Firebase Auth. The same holds for `Date.now()` and the question timestamps (`new Date()`).
- Concurrency: `Promise.all` in the handler is modelled sequentially, in index order, and the handler stops at the first call that throws. In the source, calls already started still run after a rejection, and their uploads may land without any write. Races between React state updates and overlapping async handlers are not modelled either.
- functions/index.js:83-163 repeats lines 1-81, with the template strings missing. Only the first copy is modelled.
- The on-demand callable behind `generateTTSForQuestion` is not in the source files. Its reply is a parameter of `HandleGenerateAudio`.
- `loadQuestionData` (QuestionManager.jsx:52-77) and rendering are not modelled. `withLoading`'s effect on the global counter is modelled only in `LoadingContext`, not composed with the form's calls.
- `QuestionManager.QuestionNumberShape`: lengths count characters, not UTF-16 code units. The two differ only for an id with characters outside the Basic Multilingual Plane.
- `UserAvatar.GetInitials`: upper-cases ASCII letters only. `toUpperCase` also maps other letters, some to two characters ('ß' becomes "SS"). For a name starting outside the Basic Multilingual Plane, `charAt(0)` gives a lone surrogate, which a Dafny `char` cannot hold; the model uses the whole character.
- `DialogManager.DialogList.UpdateDialog`: `field` ranges over the four text fields the form edits. Arbitrary property names are not modelled.
- A Firestore query's document order is taken as the order of the record sequence.
- Field values that are not strings count only by their truthiness. `dialogs` is either an array or "not an array".
- The upload's float progress percentage and its intermediate readings are not modelled. Progress is 0 until completion, then 100.
- AudioPlayer, the mock-data seeding, the thin CRUD wrappers, routing, CSS and `window.confirm` are not modelled.
