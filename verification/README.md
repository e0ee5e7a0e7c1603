# agri-frontend: the logic inside the screens, in Dafny

This project models the four pieces of sequential logic in the agri-frontend
web front end and proves properties about them:

- **The image queue of `MyDropzone`** (`dropzone.dfy`, helpers in
  `sequences.dfy`). The component state is the queue of accepted files.
  Each file record has a name and a size. When files are dropped, the
  component does three things. It classifies the error codes of the files
  the dropzone library rejected into a size flag and a count flag, and
  shows at most one of three toasts. It filters the accepted files by name
  against the current queue, raising the duplicate toast. It appends the
  survivors in order. Files can be removed by name or all at once. Submit
  refuses an empty queue; otherwise it posts each queued file once, with
  the `agri-images` upload preset.
- **The ping-pong word index of `RotatingText`** (`rotating_text.dfy`).
  The state is `(index, reversing)` over the fixed four-word list. One tick
  steps the index in the current direction. At either end, the tick keeps
  the index and flips the direction.
- **The signup, login and delete forms** (`forms.dfy`, `signup.dfy`,
  `login.dfy`, `delete_user.dfy`). Each form has a zod schema. A form is a
  map from field to string. Validation gives either the parsed form or the
  set of fields in error, and only a valid form is posted. Each screen
  maps the server's reply to a form reset, a field error, or an error
  banner. The e-mail format check is zod's own rule, so it enters the
  model as the parameter `isEmail`. Lengths are JavaScript's `length`,
  counted in UTF-16 code units. The rule that a missing field stops the
  schema's `.refine` from running, while a failed string check does not,
  is the object-parse behaviour of zod v3.

A submit of the image queue has no retry rounds, no progress percentage and no busy guard,
and it never clears the queue. In detail:

- a submit posts every file once, with one `Promise.all` and one catch;
- the queue is never changed by a submit, whatever the uploads do;
- queued names are not unique in every case. The duplicate check compares
  the offered files only with the queue as it was before the drop, so two
  offered files with one new name are both queued
  (`Dropzone.SameNameOfferedTwiceBothAdded`,
  `Dropzone.DropCanQueueTwoFilesWithOneName`). Names stay unique when the
  offered names are themselves distinct (`Dropzone.DropKeepsUniqueNames`).

## Model

| member | source | states |
|---|---|---|
| Dropzone.ScanCodes | src/components/ui/dropzone.jsx:26-32 | the size flag ends up set iff it was set or some code is `file-too-large`; likewise the count flag for `too-many-files`; other codes change neither |
| Dropzone.ScanRejections | src/components/ui/dropzone.jsx:24-33 | over all rejected files, each flag is set iff it was set or some error of some rejected file carries its code |
| Dropzone.Classify | src/components/ui/dropzone.jsx:20-33 | starting from two false flags, the size flag is set exactly when some rejection has `file-too-large`, and the count flag exactly when some rejection has `too-many-files` |
| Dropzone.ChooseNotice | src/components/ui/dropzone.jsx:24-42 | exactly one of the four cases: both codes seen gives the combined message, only the size code the size message, only the count code the count message, neither code no rejection toast |
| Dropzone.NoticeText | src/components/ui/dropzone.jsx:35-41 | each rejection toast has one of the three size/count messages, never the duplicate message |
| Dropzone.DropToasts | src/components/ui/dropzone.jsx:35-67 | exactly one error toast per raised notice and no other: the rejection toast first when there is one, with its own message, then the duplicate toast exactly when the duplicate flag is set |
| Dropzone.RejectionTextShown | src/components/ui/dropzone.jsx:35-41 | each of the three rejection messages is shown exactly when its notice was chosen |
| Dropzone.Survivors | src/components/ui/dropzone.jsx:54-63 | the survivors are the offered files whose name is not queued, in their offered order, each with its offered multiplicity |
| Dropzone.OnDrop | src/components/ui/dropzone.jsx:12-76 | the old queue is an unchanged prefix of the new one; the appended part is an order-preserving selection of the offered files, holding each file whose name was not queued as often as it was offered and no other file; the duplicate toast is raised iff some offered name was already queued |
| Dropzone.DropToastsShown | src/components/ui/dropzone.jsx:24-67 | the combined message shows iff both codes occur among the rejections, the size message iff only the size code does, the count message iff only the count code does, and the duplicate message iff some offered name was already queued |
| Dropzone.DropAppendsSurvivors | src/components/ui/dropzone.jsx:69-76 | the new queue is the old one followed by the survivors, and its length grows by exactly their number |
| Dropzone.AllDuplicatesLeaveQueue | src/components/ui/dropzone.jsx:54-69 | when every offered name is already queued, the queue is unchanged, and the duplicate toast is raised iff something was offered |
| Dropzone.SameNameOfferedTwiceBothAdded | src/components/ui/dropzone.jsx:54-63 | two offered files sharing a name that is not queued are both appended and raise no duplicate toast: the check is only against the queue before the drop |
| Dropzone.DropCanQueueTwoFilesWithOneName | src/components/ui/dropzone.jsx:54-76 | a drop onto an empty queue can leave two queued files with the same name |
| Dropzone.DropKeepsUniqueNames | src/components/ui/dropzone.jsx:54-76 | if the queued names are distinct and the offered names are distinct, the queued names stay distinct after the drop |
| Dropzone.RemoveFile | src/components/ui/dropzone.jsx:96-98 | the result keeps the queue's order and holds exactly the queued files whose name differs from the given one, each as often as before; no file is added |
| Dropzone.RemoveUndoesDrop | src/components/ui/dropzone.jsx:96-98 | dropping a file whose name is not queued and then removing that name gives back the original queue |
| Dropzone.RemoveAbsentName | src/components/ui/dropzone.jsx:96-98 | removing a name that no queued file has leaves the queue unchanged |
| Dropzone.RemoveFileIdempotent | src/components/ui/dropzone.jsx:96-98 | removing the same name twice is the same as removing it once |
| Dropzone.RemoveAllFiles | src/components/ui/dropzone.jsx:159-162 | after a clear the queue is empty: no name is queued |
| Dropzone.ClearEqualsRemovingEveryName | src/components/ui/dropzone.jsx:159-162 | clearing leaves the same empty queue as pressing the remove button of every queued file in turn, whatever the queue held |
| Dropzone.UploadsFor | src/components/ui/dropzone.jsx:122-129 | one upload per queued file: as many uploads as files, the i-th posting the i-th file with the `agri-images` preset |
| Dropzone.HandleSubmit | src/components/ui/dropzone.jsx:104-129 | the submit is refused iff the queue is empty, and then no upload is issued; otherwise exactly one upload per queued file, in queue order, each with the preset |
| Dropzone.SubmitAfterClearIsRefused | src/components/ui/dropzone.jsx:107-110 | after a clear, a submit is refused whatever the queue held before |
| Dropzone.SubmitAfterFirstDrop | src/components/ui/dropzone.jsx:122-129 | after a drop onto an empty queue, a submit posts each offered file once, in the order offered |
| RotatingText.JsRem | src/components/ui/rolltext.jsx:34 | JavaScript's `%` for a positive divisor: the remainder lies in `[0, b)` for a non-negative dividend and in `(-b, 0]` for a non-positive one, and differs from the dividend by a multiple of the divisor |
| RotatingText.Tick | src/components/ui/rolltext.jsx:15-40 | a tick keeps a valid index valid and moves it by at most one. Forward below the last index it adds one, so the `%` never wraps; forward at the last index it keeps the index and turns to reversing. Reversing above 0 it subtracts one; reversing at 0 it keeps the index and turns forward. The direction changes only at an end, and then the index stays |
| RotatingText.Ticks | src/components/ui/rolltext.jsx:15-40 | any number of ticks from a valid state leaves the index within the word list |
| RotatingText.ReachableStatesAreValid | src/components/ui/rolltext.jsx:12-13 | from the initial state (index 0, forward), every state reached after any number of ticks shows a word of the list |
| RotatingText.PeriodEight | src/components/ui/rolltext.jsx:17-36 | from any valid state, eight ticks come back to the same state: each end is shown for two ticks, once per direction |
| RotatingText.EveryWordShown | src/components/ui/rolltext.jsx:28-35 | from the initial state, the k-th tick (k below 4) shows word k, still moving forward |
| Forms.Utf16Length | src/app/signup/page.jsx:20-22 | JavaScript's string length: at least the number of characters and at most twice it, and zero only for the empty string |
| Forms.Utf16LengthOfBmp | src/app/signup/page.jsx:20-22 | for text without characters beyond the Basic Multilingual Plane the length is the number of characters |
| Forms.FourAstralCharsAreEightUnits | src/app/signup/page.jsx:20-22 | four emoji are four characters but have length 8 |
| Forms.Errors | src/app/signup/page.jsx:17-29 | a field is in error iff one of its own checks fails (it is missing, or a string check fails on its value), or every declared field is present and a refinement reporting on it fails; while a field is missing no refinement runs; only declared fields and refinement paths are ever in error |
| Forms.Parse | src/app/login/page.jsx:40-42 | the resolver accepts iff no field is in error; a rejection names exactly the fields in error, and at least one; an accepted form holds exactly the declared fields, with the values typed in |
| Signup.SignupErrors | src/app/signup/page.jsx:17-29 | e-mail in error iff missing or not an e-mail; password iff missing or shorter than 8 UTF-16 code units; role iff missing or empty; confirmation iff missing, or every field present and the confirmation differs from the password (a mismatch is reported on the confirmation only) |
| Signup.SignupValidIff | src/app/signup/page.jsx:17-29 | a form passes iff all four fields are present, the e-mail passes the e-mail check, the password has at least 8 UTF-16 code units, the confirmation equals the password and the role is non-empty |
| Signup.AstralPasswordLongEnough | src/app/signup/page.jsx:20-22 | a password of four emoji passes the length check, as JavaScript counts it 8 long |
| Signup.ReplyEffect | src/app/signup/page.jsx:67-90 | 201 and only 201 resets the form; a thrown error carrying a 409 response, and only that, puts the server's message on the e-mail field; reset and field error never coincide |
| Signup.Submit | src/app/signup/page.jsx:61-91 | a form is posted iff it is valid; an invalid form has the e-mail, password, role and confirmation errors of `Signup.SignupErrors`; the payload is the form with `confirmPassword` removed and every other field unchanged; 201 and only 201 resets the form; a thrown 409 and only that puts the server message on the e-mail field |
| Login.ErrorField | src/app/login/page.jsx:60-77 | a failed login marks a field iff its status is 405, 401 or 403, and never the confirmation field |
| Login.ErrorFieldMatchesStatusFor | src/app/login/page.jsx:60-77 | the status-to-field map and the per-field status table hold the same pairs: 405 with e-mail, 401 with password, 403 with role, and no other |
| Login.ErrorFieldInjective | src/app/login/page.jsx:60-77 | two statuses that mark the same field are the same status |
| Login.ReplyEffect | src/app/login/page.jsx:53-77 | 200 and only 200 resets the form; a field error is set iff a thrown error carries a response with status 405, 401 or 403, on the field that status belongs to, with the server's message; any other error, or one without a response, sets none; reset and field error never coincide |
| Login.LoginErrors | src/app/login/page.jsx:19-23 | e-mail in error iff missing or not an e-mail; password iff missing or empty; role iff missing or empty; the confirmation is never in error |
| Login.Submit | src/app/login/page.jsx:44-79 | a form is posted iff e-mail, password and role are present, the e-mail passes and password and role are non-empty; an invalid form is rejected with exactly the schema errors: e-mail, password and role as `Login.LoginErrors` says, and never the confirmation; the payload holds exactly those three fields, unchanged |
| DeleteUser.DeleteErrors | src/app/delete/page.jsx:15-18 | e-mail in error iff missing or not an e-mail; role iff missing or empty; no other field is ever in error |
| DeleteUser.BannerAfter | src/app/delete/page.jsx:37-53 | the banner after a post is non-empty only for a thrown 410, then holds the server's message; an answered post leaves it empty |
| DeleteUser.Submit | src/app/delete/page.jsx:35-56 | a form is posted iff the e-mail passes and the role is non-empty; an invalid form is rejected with exactly the schema errors: e-mail and role as `DeleteUser.DeleteErrors` says, and never the password or the confirmation; a posted form has exactly those two fields as payload; 200 and only 200 resets; no field error is ever set; after a post the banner holds the server message on a thrown 410 and is empty otherwise; an invalid form leaves the banner as it was |
| DeleteUser.BannerClearedAtStart | src/app/delete/page.jsx:37-54 | the banner shown before a posted submission has no influence on the banner after it |

## Left out

- HTTP: the posts to Cloudinary and to the backend are not modelled. An upload is a dispatched `Upload` value; a backend reply is a `Reply` parameter (a status, or a thrown error with an optional status and message).
- Promise concurrency: `Promise.all` in `handleSubmit` is modelled only as "one upload per file".
- Upload outcome: the result of the uploads and the catch that logs it are left out, because the queue does not depend on them.
- Toasts: display is left out. The error toasts of a drop are a sequence of messages (`Dropzone.DropToasts`); the empty-queue toast of a submit is the `NothingSelected` result, and the upload progress toasts are not modelled.
- Previews and rendering: `URL.createObjectURL` / `revokeObjectURL` previews, all JSX, styling and framer-motion parameters are left out.
- Library enforcement: react-dropzone's own enforcement of `.jpg`, 15 files and 1024 × 10000 bytes is library behaviour. Those values appear only as named constants; the model starts from the accepted/rejected split the library hands over.
- Stale closure: `onDrop` filters against the `files` captured by `useCallback([files])` but appends to `previousFiles`. The model takes both to be the current queue.
- Timers: the timer periods (2000 ms forward, 1000 ms back), `setInterval` / `clearInterval` and the effect re-run on a direction change are left out. One tick is one call of the active `setIndex` updater.
- React-hook-form internals are left out; the zod e-mail regex is the `isEmail` parameter.
- Error messages: zod's error messages per rule are not modelled, only which fields are in error.
- Other screens: the landing, upload and animate pages and the `Input` component are pure layout and carry no logic.
