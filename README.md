# SecureExam core, modelled in Dafny

SecureExam is a Next.js exam-proctoring application. Teachers write questions, assemble them into exams, schedule them, and watch students live while they sit them. Students see the exams open to them, take them under a countdown, with lockdown keys and webcam face checks, and see their scores. The server side is a set of API routes over a relational database. A socket server keeps track of which students are present on which exam.

This project models the decision logic of that application and proves what it promises. It covers:

- **Stateful stores.** Each one is a class whose fields the methods update, with `modifies` frames:
  - the teacher's draft-exam list in browser storage (`ExamStore.Store`);
  - the socket server's presence registry (`Presence.Registry`);
  - the fixed-window request limiter (`RateLimit.Limiter`), which answers 429 as in section 4 of RFC 6585;
  - the monitoring view's per-student records (`Monitor.Dashboard`);
  - the exam-taking timer and session (`UseExam.ExamTimer`, `UseExam.ExamSession`);
  - the face-proctoring cooldowns (`FaceProctoring.Proctor`);
  - the sign-in form (`AuthForm.Form`);
  - the create-exam page (`CreateExam.Page`);
  - the question bank (`QuestionBank.Bank`);
  - the database tables touched by the terminate action (`Terminate.Database`).
- **Validators.** The request schemas are functions from a field-by-field body to either the parsed value, with its defaults, or the list of issues a ZodError carries. This includes the client's sign-in schemas and the webcam/fullscreen exclusion.
- **List rules.** The filter, sort and group rules of the question bank, student list, exam list, student dashboard, teacher classes and teacher students pages, as functions over sequences. The library sort is modelled as a stable sort by key (`Sorting`).
- **String rules:**
  - the `document.cookie` parser and writer (the cookie-string of section 4.2.1 of RFC 6265);
  - the storage helpers, including the data-URL prefix of RFC 2397;
  - plagiarism normalisation, trigrams and Jaccard similarity;
  - client-IP header parsing.
- **Access and transition rules:**
  - the role guards;
  - who may view and upload snapshots;
  - terminating an attempt;
  - exam listing pages and exam creation;
  - the dashboard's role routing.

Time is an integer number of milliseconds passed in. The database, the clock, random ids, date parsing and printing, JWT verification, zod's email/cuid/datetime formats and base64 are parameters of the operations that use them.

## Model

| member | source | states |
|---|---|---|
| Auth.CurrentUser | app/lib/api/auth.ts:37-67 | no user without a non-empty token cookie or when verification fails; a user only when the token verifies and the lookup finds that user, and then exactly the user the lookup finds |
| Auth.RequireAuth | app/lib/api/auth.ts:69-77 | succeeds exactly when there is a current user, with that user; otherwise an ApiError 401 "Authentication required" |
| Auth.RequireRole | app/lib/api/auth.ts:79-90 | 401 without a user, 403 "Insufficient permissions" for a role outside the list, success exactly for a role in the list |
| Auth.RequireTeacherAdmits | app/lib/api/auth.ts:92-94 | requireTeacher admits exactly teachers and admins and answers a student with 403 |
| Auth.RequireStudentAdmits | app/lib/api/auth.ts:96-98 | requireStudent admits exactly students and answers an admin with 403 |
| ApiErrors.ErrorHandler | app/lib/api/errors.ts:15-57 | never a success; an ApiError keeps its status, message and errors; a ZodError is 400 "Validation error" with its issues; a plain Error is 500 with its own message; a non-Error is 500 "An unexpected error occurred" |
| ApiErrors.SuccessResponse | app/lib/api/errors.ts:59-67 | a success envelope holding the data, with status 200 unless another is given |
| ApiErrors.Respond | app/lib/api/errors.ts:15-67 | a route's answer is a success exactly when its body produced a value |
| ApiErrors.ValidateRequest | app/lib/api/errors.ts:69-84 | a parsed value passes through; a ZodError from reading or parsing becomes ApiError 400 "Validation error" with the issues; any other failure is rethrown unchanged |
| ApiErrors.ValidationFailureIs400 | app/lib/api/errors.ts:69-84 | a schema failure reaches the client as a 400 carrying the schema's issues |
| ApiErrors.ClientIp | app/lib/api/errors.ts:86-92 | the client address is never empty |
| ApiErrors.ClientIpFirstHop | app/lib/api/errors.ts:88 | when x-forwarded-for starts with an address, the result is exactly its text up to the first comma |
| ApiErrors.ClientIpFallback | app/lib/api/errors.ts:88-90 | without a usable first x-forwarded-for entry the address is x-real-ip when non-empty, else "unknown" |
| ApiErrors.UserAgent | app/lib/api/errors.ts:94-96 | the user-agent header when non-empty, else "unknown"; never empty |
| Records.LowerExamStatus | app/api/student/dashboard/route.ts:37-38 | the lower-cased exam status is the ASCII lower-casing of its stored upper-case name |
| Records.LowerAttemptStatus | app/api/student/dashboard/route.ts:40-41 | the lower-cased attempt status is the ASCII lower-casing of its name, so IN_PROGRESS gives "in_progress" |
| Records.LowerExamStatusInjective | app/api/student/dashboard/route.ts:37-38 | lower-casing keeps distinct exam statuses distinct |
| Numbers.Hundredths | app/api/student/dashboard/route.ts:140-142 | the whole number of hundredths toFixed(2) gives lies within half a hundredth of x, and is not negative for a non-negative x |
| Numbers.Fixed2 | app/api/student/dashboard/route.ts:140-142 | Number(x.toFixed(2)) is a whole number of hundredths (`Hundredths(x)` of them), stays within half a hundredth of x and keeps a non-negative value non-negative |
| Numbers.Fixed2Within | app/api/student/dashboard/route.ts:140 | rounding a value between 0 and a whole bound stays between 0 and that bound |
| SecuritySettingsPanel.With | app/components/exam/SecuritySettings.tsx:18-21 | the spread sets exactly the chosen key to the value and keeps every other switch |
| SecuritySettingsPanel.UpdateSetting | app/components/exam/SecuritySettings.tsx:16-34 | the chosen switch takes the value; enabling the webcam while fullscreen is on turns fullscreen off, and the other way round; every other switch and the warning limit are unchanged |
| SecuritySettingsPanel.NeverBoth | app/components/exam/SecuritySettings.tsx:23-31 | from settings without both webcam and fullscreen on, no update produces both on |
| SecuritySettingsPanel.WarningsEntry | app/components/exam/SecuritySettings.tsx:125 | parseInt(value) \|\| 3: NaN and 0 give 3, any other number is kept; the result is never 0 |
| SecuritySettingsPanel.UpdateWarnings | app/components/exam/SecuritySettings.tsx:125 | editing the warning limit changes only the limit |
| FaceProctoring.Guard | app/hooks/useFaceProctoring.ts:142-154 | disabled gives the idle default state, enabled without a stream the loading "Waiting for webcam stream..." state; detection starts exactly when enabled with a stream |
| FaceProctoring.InitialState | app/hooks/useFaceProctoring.ts:117-122 | the first state is loading with the waiting message when enabled, idle with no message otherwise, with no faces and no detection |
| FaceProctoring.Classify | app/hooks/useFaceProctoring.ts:195-243 | every round is ready at now with the face count; no face and several faces request "no-face" and "multiple-faces" with their messages; one face shows its orientation and requests "orientation" exactly when looking away |
| FaceProctoring.UnknownIsQuiet | app/hooks/useFaceProctoring.ts:224-243 | a single face of unknown orientation shows the looking-away message but requests no violation |
| FaceProctoring.KeysIndependent | app/hooks/useFaceProctoring.ts:185-193 | recording a firing for one key does not change whether another key may fire |
| FaceProctoring.Proctor.ApplyGuard | app/hooks/useFaceProctoring.ts:141-154 | the guard's settled state replaces the state, and the cooldown table and reports stay as they were |
| FaceProctoring.Proctor.TriggerViolation | app/hooks/useFaceProctoring.ts:185-193 | fires exactly when 15 s have passed since the key last fired (0 when never); a firing records now for that key alone and reports the message; it keeps the invariant that two firings of one key lie at least 15 s apart |
| FaceProctoring.Proctor.ProcessDetections | app/hooks/useFaceProctoring.ts:195-243 | the state becomes the classified state, and the requested violation is reported exactly when its key's cooldown has passed |
| FaceProctoring.Proctor.DetectionFailed | app/hooks/useFaceProctoring.ts:266-274 | a failed round shows the error status and message and keeps everything else |
| Validation.StrField | app/lib/api/validation.ts:5 | a string field has no issue exactly when it is present (or optional) and at least the minimum length; every issue names the field |
| Validation.FormatField | app/lib/api/validation.ts:6 | a format field has no issue exactly when it is present (or optional) and in the format |
| Validation.EnumField | app/lib/api/validation.ts:8 | an enum field has no issue exactly when it is present (or optional) and one of the listed values |
| Validation.NumField | app/lib/api/validation.ts:28 | a number field has no issue exactly when it is present (or optional) and within its bounds |
| Validation.Parse | app/lib/api/validation.ts:4-14 | a schema accepts exactly when there are no issues, and otherwise throws a ZodError with them |
| Validation.Register | app/lib/api/validation.ts:4-14 | registration is accepted exactly when the name has at least 2 characters, the email is valid, the password has at least 8 characters and the role, when given, is STUDENT or TEACHER; the role defaults to STUDENT and the optional fields pass through |
| Validation.RegisterRefuses | app/lib/api/validation.ts:7-8 | a password under 8 characters and the role ADMIN are always refused |
| Validation.Login | app/lib/api/validation.ts:16-19 | login is accepted exactly with a valid email and a non-empty password, which are returned |
| Validation.QuestionIssues | app/lib/api/validation.ts:22-33 | a question has no issue exactly when title and text are non-empty, the type is one of the five, points are not negative and the difficulty is easy, medium or hard |
| Validation.CreateQuestion | app/lib/api/validation.ts:22-33 | accepted exactly when the checks pass; points default to 1, tags to [] and difficulty to "medium" |
| Validation.UpdateQuestion | app/lib/api/validation.ts:35 | the partial schema checks only present fields and fills in no defaults |
| Validation.EmptyQuestionUpdate | app/lib/api/validation.ts:35 | the empty update is accepted and leaves points absent |
| Validation.SettingsWithDefaults | app/lib/api/validation.ts:47-59 | absent settings take zod's defaults: webcam required, fullscreen off, 3 warnings, review, tab-switch prevention and screen monitoring on, the rest off; given values are kept |
| Validation.WarningsIssues | app/lib/api/validation.ts:56 | the warning limit, when given, must lie between 1 and 10 |
| Validation.TimeIssues | app/lib/api/validation.ts:42-43 | start and end times, when given, must be datetimes |
| Validation.CreateExamIssues | app/lib/api/validation.ts:38-60 | a create body has no issue exactly when the create rule holds |
| Validation.CreateExam | app/lib/api/validation.ts:38-60 | accepted exactly when the title is non-empty, duration >= 1, times are datetimes, maxAttempts >= 1, passingScore within 0..100, at least one question id and a settings object with warnings within 1..10; description defaults to "", maxAttempts to 1 |
| Validation.CreateExamWithChecks | app/lib/api/validation.ts:63-69 | accepted exactly when the create schema accepts and the defaulted settings do not have both webcam and fullscreen on; an otherwise valid body is refused with the one settings issue |
| Validation.RefinementRejects | app/lib/api/validation.ts:63-69 | a valid body is refused by the refinement exactly when it turns fullscreen on without turning the webcam off, since the webcam defaults to on |
| Validation.DefaultSettingsPass | app/lib/api/validation.ts:47-69 | with all settings defaulted the refinement passes and the webcam is required |
| Validation.UpdateExam | app/lib/api/validation.ts:71-93 | an update is accepted exactly when every present field passes its check; it drops questionIds |
| Validation.UpdateExamWithChecks | app/lib/api/validation.ts:96-106 | accepted exactly when the update schema accepts and the given settings do not set both flags to true explicitly |
| Validation.UpdateNeedsBothExplicit | app/lib/api/validation.ts:96-106 | an update turning fullscreen on without mentioning the webcam passes |
| Validation.StartAttempt | app/lib/api/validation.ts:109-111 | accepted exactly when the exam id is a cuid |
| Validation.AnswerIssues | app/lib/api/validation.ts:113-118 | one answer has no issue exactly when its question id is a cuid, the answer is present and timeSpent is not negative |
| Validation.SubmitAnswer | app/lib/api/validation.ts:113-118 | accepted exactly when the answer rule holds; flaggedForReview defaults to false |
| Validation.AnswersIssues | app/lib/api/validation.ts:122 | a list of answers has no issue exactly when every answer passes |
| Validation.SubmitExam | app/lib/api/validation.ts:120-123 | accepted exactly when the attempt id is a cuid and every answer passes; the parsed list has one parsed answer per answer |
| Validation.MonitoringEventOf | app/lib/api/validation.ts:126-151 | accepted exactly when the ids are cuids, the type is one of the 17 and the severity one of the four; severity defaults to LOW |
| Validation.IdsIssues | app/lib/api/validation.ts:155 | a list of ids has no issue exactly when every id is a cuid |
| Validation.EnrollStudents | app/lib/api/validation.ts:154-156 | accepted exactly with at least one id, every one a cuid |
| Validation.GradeSubmission | app/lib/api/validation.ts:159-163 | accepted exactly with a score >= 0 and a status among the three; status defaults to GRADED |
| AuthForm.MinIssue | app/components/auth/AuthForm.tsx:16 | no issue exactly when the string reaches the minimum length |
| AuthForm.EmailIssue | app/components/auth/AuthForm.tsx:15 | no issue exactly when the email is in the email format |
| AuthForm.RoleIssue | app/components/auth/AuthForm.tsx:17 | no issue exactly when the role is "student" or "teacher" |
| AuthForm.LoginSchema | app/components/auth/AuthForm.tsx:14-18 | the login form is accepted exactly with a valid email, a password of at least 6 characters and a known role, and passes the values unchanged |
| AuthForm.RegisterSchemaWith | app/components/auth/AuthForm.tsx:20-29 | accepted exactly when name, email, password length and role pass and the two passwords match; a mismatch with a known role ends with the "Passwords don't match" issue on confirmPassword |
| AuthForm.RegisterSchemaAsWritten | app/components/auth/AuthForm.tsx:20-29 | the form's schema as written accepts passwords of 6 characters or more |
| AuthForm.RegisterSchema | app/components/auth/AuthForm.tsx:20-29 | the corrected schema accepts exactly what the written one does, but with the server's minimum of 8 characters |
| AuthForm.ServerRole | app/lib/api/validation.ts:8 | the intended spelling of a client role in the server's enum: "teacher" becomes "TEACHER" and every other role "STUDENT" (no source line performs this mapping; it is the corrected half of the role finding) |
| AuthForm.IntendedBody | app/lib/api/client.ts:148-149 | the body api.auth.register posts, with only the role changed to the server's spelling; for a form role it is "TEACHER" exactly for "teacher" |
| AuthForm.ClientServerGap | app/components/auth/AuthForm.tsx:23 | as written, the form accepts the six-character password "abcdef"; the server refuses the body posted as typed with the 8-character password issue among its issues, and still refuses it with the role in the server's spelling |
| AuthForm.RoleCaseGap | app/components/auth/AuthForm.tsx:25 | as written, every registration the form accepts, posted as typed, is refused by the server's schema with an issue on the lower-case role |
| AuthForm.ClientImpliesServer | app/lib/api/validation.ts:4-14 | with both fixes (the form's minimum raised to 8 and the role sent in the server's spelling), every registration the form accepts passes the server's schema with the same name, email and password |
| AuthForm.FailureMessage | app/components/auth/AuthForm.tsx:72-74 | a resolved call leaves no error; a rejected Error shows its message; any other rejection shows "Login failed" or "Registration failed" by mode |
| AuthForm.Form.ToggleMode | app/components/auth/AuthForm.tsx:344 | the switch flips login/register mode and changes nothing else |
| AuthForm.Form.ToggleShowPassword | app/components/auth/AuthForm.tsx:165 | flips password visibility and changes nothing else |
| AuthForm.Form.ToggleShowConfirmPassword | app/components/auth/AuthForm.tsx:296 | flips confirm-password visibility and changes nothing else |
| AuthForm.Form.HandleSubmit | app/components/auth/AuthForm.tsx:66-90 | while the call is outstanding loading is on and the error is cleared; afterwards loading is off and the error is the failure's message, or empty |
| AuthForm.Form.SubmitLogin | app/components/auth/AuthForm.tsx:128 | onLogin is called exactly when the login schema accepts; a refused form changes no state |
| AuthForm.Form.SubmitRegister | app/components/auth/AuthForm.tsx:210 | onRegister is called exactly when the form's registration schema as written (password minimum 6) accepts; a refused form changes no state |
| AuthForm.Form.SubmitRegisterCorrected | app/components/auth/AuthForm.tsx:210 | with the corrected schema (minimum 8), onRegister is called exactly when that schema accepts, and every submitted form's intended body passes the server's register schema |
| ExamStore.DefaultSettingsTwoOn | app/lib/examStore.ts:102-111 | in the default security settings exactly two switches are on: showResultsImmediately and allowReview |
| ExamStore.Promote | app/lib/examStore.ts:75-85 | the promoted list has the same length, and each exam is either made active or left alone |
| ExamStore.PromoteExact | app/lib/examStore.ts:76-82 | exactly the drafts whose schedule parses to a time not after now become active, with only status and updatedAt changed; ids never change |
| ExamStore.PromoteIdempotent | app/lib/examStore.ts:70-90 | promoting an already promoted list with the same clock changes nothing |
| ExamStore.PromoteNoneDue | app/lib/examStore.ts:86-90 | with no due draft the stored list is returned unchanged |
| ExamStore.FindIndex | app/lib/examStore.ts:133 | findIndex gives the first position holding the id, or -1 exactly when no exam has it |
| ExamStore.Find | app/lib/examStore.ts:92-94 | find gives the first exam of the list holding that id, and nothing exactly when no exam has it |
| ExamStore.Created | app/lib/examStore.ts:100-124 | absent fields take the defaults: title "Untitled Exam", description "", duration 30, status draft, creator "unknown_user", no questions, the default settings and a random id; both timestamps are now |
| ExamStore.CreatedKeepsGiven | app/lib/examStore.ts:112-124 | a given title, id or status is kept as given |
| ExamStore.Merge | app/lib/examStore.ts:135 | the merged exam always has the id it was looked up by and the new updatedAt, whatever the changes say |
| ExamStore.MergeNoChanges | app/lib/examStore.ts:135 | merging no changes only restamps updatedAt |
| ExamStore.MergeArchive | app/lib/examStore.ts:168-172 | archiving changes only the status and updatedAt |
| ExamStore.RemoveId | app/lib/examStore.ts:144 | the result is the list filtered to the exams without the id, in their order and with every copy kept; it keeps exactly those exams, and keeps the length exactly when no exam had the id |
| ExamStore.RemoveAbsent | app/lib/examStore.ts:144-145 | removing an id no exam has leaves the list as it was |
| ExamStore.Copy | app/lib/examStore.ts:154-161 | the copy has a fresh id, the title plus " (Copy)", status draft, the original's questions, settings, description, duration, schedule and author, and both timestamps set to the current time |
| ExamStore.Store.GetExams | app/lib/examStore.ts:70-90 | returns the promoted list, which is then the stored list |
| ExamStore.Store.GetExam | app/lib/examStore.ts:92-94 | the first exam with the id in the promoted list |
| ExamStore.Store.CreateExam | app/lib/examStore.ts:100-129 | the new exam is at index 0 and the previous (promoted) list follows unchanged, so the length grows by one |
| ExamStore.Store.UpdateExam | app/lib/examStore.ts:131-140 | an unknown id returns nothing and stores the promoted list; otherwise only that index changes, to the merge, which keeps the id; the length never changes |
| ExamStore.Store.DeleteExam | app/lib/examStore.ts:142-149 | false and no change when no exam has the id; otherwise no remaining exam has the id and the others keep their order |
| ExamStore.Store.DuplicateExam | app/lib/examStore.ts:151-166 | an unknown id returns nothing; a known one prepends the copy and keeps the whole promoted list, original included |
| ExamStore.Store.ArchiveExam | app/lib/examStore.ts:168-172 | an update with status archived: nothing for an unknown id, otherwise only that exam's status and updatedAt change |
| Presence.StudentIndex | server.ts:89 | the position of a student in an exam's inner map, or -1 exactly when the student is absent |
| Presence.ExamIndex | server.ts:84 | the position of an exam in the outer map, or -1 exactly when the exam is absent |
| Presence.SetSeen | server.ts:89 | m.set: the student's last activity becomes the timestamp, every other student's is unchanged, and keys stay unique |
| Presence.Touch | server.ts:83-90 | touchStudent keeps keys unique at both levels and no inner map empty |
| Presence.TouchLookup | server.ts:83-90 | after touchStudent the exam maps the student to the timestamp; every other student of that exam and every other exam are unchanged |
| Presence.TouchOnce | server.ts:83-90 | after touchStudent the exam lists the student exactly once, with the new timestamp |
| Presence.DeleteSeen | server.ts:97 | m.delete removes exactly that student and keeps the others' activity |
| Presence.DeleteExam | server.ts:98 | deleting an exam removes exactly that key and keeps every other exam's map |
| Presence.Remove | server.ts:93-100 | removeStudent is false and changes nothing without both ids or for an unknown exam; otherwise it is true exactly when the student was present, the student is then absent, the exam's other students keep their entries, and other exams are unchanged; a false result leaves the registry as it was |
| Presence.Rows | server.ts:66-70 | one exam's list has one row per entry, in the map's order, carrying the exam id |
| Presence.AllRowsMember | server.ts:72-77 | a row is in the full list exactly when some exam's map holds that student with that activity |
| Presence.Active | server.ts:64-79 | with an exam id, exactly one row per student of that exam, in the exam's order, carrying its id and lastActivity, and none for an unknown exam; without an id, every exam's rows exam after exam |
| Presence.InactiveEventsMember | server.ts:121-130 | a student-inactive notification is sent for a student exactly when some row of theirs has been silent for more than 30 000 ms |
| Presence.ToTeachersAll | server.ts:127 | every notification of the sweep goes to the teachers room, in order |
| Presence.Registry.GetActiveStudents | server.ts:64-79 | the nested for-of walk returns Active of the registry |
| Presence.Registry.TouchStudent | server.ts:83-90 | the registry becomes Touch of the old one and stays valid |
| Presence.Registry.RemoveStudent | server.ts:93-100 | the registry and the result are those of Remove |
| Presence.Registry.InactivitySweep | server.ts:121-130 | one interval run emits to the teachers exactly the inactivity notifications of every row, in registry order |
| Presence.Registry.JoinExam | server.ts:137-178 | a teacher joins "teachers" and the exam room and receives the current list; a student with both ids is touched, joins the exam and private rooms, and is announced with the refreshed list; anyone else changes nothing |
| Presence.Registry.MonitoringEvent | server.ts:180-191 | the event always goes to the teachers, and to the exam room when it names an exam; presence is refreshed only when exam id, student id and a non-zero timestamp are all present |
| Presence.Registry.Disconnect | server.ts:202-216 | a student's socket with both ids is removed, and student-left is sent only when an entry was actually removed; other sockets change nothing |
| RateLimit.CeilSeconds | app/lib/api/rateLimit.ts:60 | Math.ceil(d / 1000): the least whole number of seconds covering d milliseconds |
| RateLimit.StoreKey | app/lib/api/rateLimit.ts:46 | the table key is the prefix, or "default" when it is unset or empty, then ":" and the address |
| RateLimit.Decide | app/lib/api/rateLimit.ts:49-65 | a missing or ended window (reset time before now) restarts at count 1 and passes; an open window counts the request and passes exactly while the count stays within the maximum, otherwise 429 with the whole seconds left |
| RateLimit.RetryHint | app/lib/api/rateLimit.ts:59-64 | a refused request carries status 429, and its retry hint in seconds covers what is left of the window, to within a second |
| RateLimit.ResetIsStrict | app/lib/api/rateLimit.ts:49 | a request at exactly the reset time still counts against the old window |
| RateLimit.Run | app/lib/api/rateLimit.ts:30-66 | successive requests on one key give one outcome each |
| RateLimit.RunWithinWindow | app/lib/api/rateLimit.ts:57-65 | inside an open window holding count requests, at most maximum minus count later requests pass |
| RateLimit.WindowBound | app/lib/api/rateLimit.ts:49-65 | at most maxRequests requests pass in one window, counting the one that opens it (one, when the maximum is below 1) |
| RateLimit.Swept | app/lib/api/rateLimit.ts:15-22 | after the sweep exactly the entries whose reset time is not before now remain, unchanged |
| RateLimit.Limiter.Check | app/lib/api/rateLimit.ts:30-66 | with RATE_LIMIT_ENABLED "false" every request passes and nothing changes; otherwise only the request's own key is updated as Decide says, and a refusal is always 429 |
| RateLimit.Limiter.Cleanup | app/lib/api/rateLimit.ts:15-22 | the loop leaves the table equal to Swept of the old table |
| Monitor.InferActivityType | app/dashboard/teacher/monitor/page.tsx:184-190 | each of the five outcomes exactly when its case-insensitive test matches and no earlier one does: copy-paste for copy or paste, then fullscreen-exit, then right-click, then tab-switch for blur, focus or switch, and suspicious-behavior when none of the seven words occurs; never a window blur |
| Monitor.InferFallback | app/dashboard/teacher/monitor/page.tsx:184-190 | a description mentioning none of the seven words is suspicious behaviour |
| Monitor.InferFirstMatchWins | app/dashboard/teacher/monitor/page.tsx:185 | a description that begins with "copy" (a literal prefix, not a search) is a copy-paste whatever focus, switch or fullscreen words follow |
| Monitor.FindPair | app/dashboard/teacher/monitor/page.tsx:55 | the position of the record for an exam and student, or -1 exactly when there is none |
| Monitor.PairAt | app/dashboard/teacher/monitor/page.tsx:55 | with unique pairs, the lookup finds the one record holding the pair |
| Monitor.NewRecord | app/dashboard/teacher/monitor/page.tsx:58-68 | a new record is active, without webcam, on question 1, with no activities or warnings, and its attempt id is exam id, "-", student id |
| Monitor.Take | app/dashboard/teacher/monitor/page.tsx:92 | slice(0, n) keeps the first n elements, or all when there are fewer |
| Monitor.Flag | app/dashboard/teacher/monitor/page.tsx:84-93 | a violation puts the new activity first, keeps at most 50 with the older ones following in order, adds one warning and changes nothing else |
| Monitor.UpdateRecord | app/dashboard/teacher/monitor/page.tsx:72-93 | heartbeat sets question index + 1 (0 when absent), the webcam flag and active; question sets the question; webcam sets the flag; violation flags the activity with its inferred type; other types change nothing; ids never change |
| Monitor.ApplyEvent | app/dashboard/teacher/monitor/page.tsx:47-50 | an event without a type or payload leaves the list unchanged |
| Monitor.ApplyEventFrame | app/dashboard/teacher/monitor/page.tsx:51-96 | an event changes only its own pair's record: a new pair is appended at the end, every other record keeps its contents and place, and pairs stay unique |
| Monitor.ApplyEventRecord | app/dashboard/teacher/monitor/page.tsx:56-94 | the pair's record after an event is the update of the existing record, or of a new one, with lastActivity set to the payload's timestamp |
| Monitor.MergeActive | app/dashboard/teacher/monitor/page.tsx:119-141 | the active-list merge keeps the old list as a prefix, keeps pairs unique, and afterwards every listed student has a record |
| Monitor.MergeKeepsExisting | app/dashboard/teacher/monitor/page.tsx:123-126 | merging never changes a record that is already shown |
| Monitor.MergeAppendsAbsent | app/dashboard/teacher/monitor/page.tsx:123-137 | a record is appended only for an (exam, student) pair the old list did not have |
| Monitor.MergeAppendsListed | app/dashboard/teacher/monitor/page.tsx:127-136 | every appended record is the starting record (active, no webcam, question 1, no activities, no warnings, last activity as sent) of some listed student |
| Monitor.StudentLeft | app/dashboard/teacher/monitor/page.tsx:150-154 | student-left is the list filtered to the other students' records, in their order; no record of that student remains in any exam and every other record stays |
| Monitor.StudentLeftKeepsUnique | app/dashboard/teacher/monitor/page.tsx:150-154 | removing a student's records keeps the remaining (exam, student) pairs unique |
| Monitor.StudentInactive | app/dashboard/teacher/monitor/page.tsx:157-162 | student-inactive clears isActive on exactly that student's records and changes nothing else |
| Monitor.CountActive | app/dashboard/teacher/monitor/page.tsx:302 | the Active Students figure is the length of the list filtered to active records, at most the number of records |
| Monitor.CountWebcam | app/dashboard/teacher/monitor/page.tsx:332 | the Webcam Active figure is the length of the list filtered to records with the webcam on, at most the number of records |
| Monitor.CountHighRisk | app/dashboard/teacher/monitor/page.tsx:347 | the High Risk figure is the length of the list filtered to records with two warnings or more, at most the number of records |
| Monitor.TotalFlagged | app/dashboard/teacher/monitor/page.tsx:317 | the Total Violations figure is at least each record's activity count, is 0 exactly when no record has a flagged activity, and for one record is that record's count |
| Monitor.ReduceFlaggedFrom | app/dashboard/teacher/monitor/page.tsx:317 | the page's `reduce` from a start value gives that value plus the Total Violations figure |
| Monitor.TotalFlaggedIsReduce | app/dashboard/teacher/monitor/page.tsx:317 | the page's `reduce` from 0 gives exactly the Total Violations figure |
| Monitor.TotalFlaggedAppend | app/dashboard/teacher/monitor/page.tsx:317 | the Total Violations figure of two lists together is the sum of their figures |
| Monitor.InactiveLowersActive | app/dashboard/teacher/monitor/page.tsx:157-162 | after student-inactive the active count does not grow and none of that student's records is active |
| Monitor.Dashboard.HandleIncomingEvent | app/dashboard/teacher/monitor/page.tsx:43-96 | the page state becomes ApplyEvent of the old state, and pairs stay unique |
| Monitor.Dashboard.OnActiveStudents | app/dashboard/teacher/monitor/page.tsx:119-141 | the forEach loop leaves the state equal to MergeActive of the old state, with pairs unique |
| Monitor.Dashboard.OnStudentLeft | app/dashboard/teacher/monitor/page.tsx:150-154 | the state becomes StudentLeft of the old state, and pairs stay unique |
| Monitor.Dashboard.OnStudentInactive | app/dashboard/teacher/monitor/page.tsx:157-162 | the state becomes StudentInactive of the old state, and pairs stay unique |
| UseExam.TickStep | app/hooks/useExam.ts:17-32 | a stopped timer or one at zero does not tick; above one second a tick takes one second off; at one second or less it stops at 0 and calls onTimeUp once; the time never goes negative from a non-negative start |
| UseExam.CountdownFiresOnce | app/hooks/useExam.ts:17-32 | from t seconds, n ticks leave max(t - n, 0) seconds, stop the timer exactly when n >= t, and call onTimeUp exactly once in all by then |
| UseExam.StoppedStays | app/hooks/useExam.ts:18 | a stopped timer stays as it is however many ticks pass |
| UseExam.ExamTimer.Tick | app/hooks/useExam.ts:17-32 | one interval tick changes the timer as TickStep says |
| UseExam.ExamTimer.PauseTimer | app/hooks/useExam.ts:34 | pausing stops the timer and keeps the time |
| UseExam.ExamTimer.ResumeTimer | app/hooks/useExam.ts:35 | resuming starts the timer and keeps the time |
| UseExam.ExamTimer.ResetTimer | app/hooks/useExam.ts:36-39 | reset restores the initial time and the configured running flag |
| UseExam.AnsweredCount | app/hooks/useExam.ts:333 | the answered count is the length of the questions filtered to those with an answer, never exceeds the question count and equals it exactly when every question has an answer |
| UseExam.ProgressPercentage | app/hooks/useExam.ts:337 | no percentage exactly when there are no questions (the division gives NaN); otherwise answered / total * 100, between 0 and 100, and 100 exactly when every question is answered |
| UseExam.ExamSession.UpdateAnswer | app/hooks/useExam.ts:291-293 | sets exactly that question's answer and nothing else |
| UseExam.ExamSession.ToggleFlag | app/hooks/useExam.ts:295-305 | adds the question to the flags when absent and removes it when present; nothing else changes |
| UseExam.ExamSession.GoToQuestion | app/hooks/useExam.ts:307-311 | moves only to an index inside the question list; the index always stays in range |
| UseExam.ExamSession.GoToNext | app/hooks/useExam.ts:313-317 | moves forward exactly when canGoNext holds |
| UseExam.ExamSession.GoToPrevious | app/hooks/useExam.ts:319-323 | moves back exactly when canGoPrevious holds |
| UseExam.ExamSession.SubmitExam | app/hooks/useExam.ts:325-330 | the first call hands the current answers to onSubmit and marks the session submitted; later calls hand over nothing |
| UseExam.ExamSession.GetProgress | app/hooks/useExam.ts:332-339 | answered is the length of the questions filtered to those with an answer, total the number of questions, answered never exceeds total, and the percentage is `ProgressPercentage(answered, total)`, which is 100 exactly when every question has an answer |
| UseExam.KeyDown | app/hooks/useExam.ts:86-109 | without lockdown no key is reported; with it, developer-tools, Alt+Tab and clipboard violations are each reported exactly when their key test holds |
| UseExam.KeyDownAtMostOne | app/hooks/useExam.ts:86-109 | a single key event reports at most one violation |
| CreateExam.FilterQuestions | app/dashboard/teacher/create-exam/page.tsx:38-40 | the picker lists, in bank order, exactly the questions whose text contains the search ignoring case |
| CreateExam.EmptySearchShowsAll | app/dashboard/teacher/create-exam/page.tsx:38-40 | an empty search shows the whole bank |
| CreateExam.SetScheduleEnabled | app/dashboard/teacher/create-exam/page.tsx:48-51 | turning scheduling off clears the scheduled time; turning it on keeps it; other fields stay |
| CreateExam.Validate | app/dashboard/teacher/create-exam/page.tsx:56-85 | a blank title is refused first, then a duration not above 0; with scheduling on, a missing, unparsable, or not more than a minute ahead time is refused with its message; accepted exactly when none applies, with the ISO time only when scheduled |
| CreateExam.OneMinuteIsTooSoon | app/dashboard/teacher/create-exam/page.tsx:80 | a time exactly 60 000 ms ahead is refused |
| CreateExam.Picked | app/dashboard/teacher/create-exam/page.tsx:88-90 | the exam's questions are exactly the selected bank entries, filtered in bank order and each mapped to its id and points; so every one was selected and every selected entry is there |
| CreateExam.PickedIgnoresClickOrder | app/dashboard/teacher/create-exam/page.tsx:88-90 | the same selection in any click order gives the same questions, in bank order |
| CreateExam.Draft | app/dashboard/teacher/create-exam/page.tsx:92-99 | the draft has the trimmed title and description, the duration, status draft, the picked questions and the schedule, and leaves id, settings and creator to their defaults |
| CreateExam.Page.OnTitle | app/dashboard/teacher/create-exam/page.tsx:52 | sets only the title |
| CreateExam.Page.OnDescription | app/dashboard/teacher/create-exam/page.tsx:52 | sets only the description |
| CreateExam.Page.OnDuration | app/dashboard/teacher/create-exam/page.tsx:52 | sets only the duration |
| CreateExam.Page.OnScheduledFor | app/dashboard/teacher/create-exam/page.tsx:52 | sets only the scheduled time |
| CreateExam.Page.OnScheduleEnabled | app/dashboard/teacher/create-exam/page.tsx:48-51 | the form becomes SetScheduleEnabled of the old form |
| CreateExam.Page.Toggle | app/dashboard/teacher/create-exam/page.tsx:42-44 | removes a selected id, or appends an unselected one |
| CreateExam.Page.HandleSubmit | app/dashboard/teacher/create-exam/page.tsx:56-102 | a refused form sets only the error and stores nothing; an accepted one clears the error, puts the created draft first in the store and navigates to its page |
| QuestionBank.Shown | app/components/teacher/questions/QuestionBank.tsx:83-107 | the shown list keeps the bank's order and holds exactly the questions that match the lower-cased search (title, text, subject or a tag) and pass the type and subject filters |
| QuestionBank.StagesCompose | app/components/teacher/questions/QuestionBank.tsx:83-107 | the search, type and subject filters applied one after another give exactly the shown list |
| QuestionBank.NothingChosenShowsAll | app/components/teacher/questions/QuestionBank.tsx:86-104 | with an empty search and no filter every question is shown, in order |
| QuestionBank.ChooseType | app/components/teacher/questions/QuestionBank.tsx:213-216 | an empty choice switches the type filter off, any other value makes it that one-item list; the subject filter is untouched |
| QuestionBank.ChooseSubject | app/components/teacher/questions/QuestionBank.tsx:230-233 | an empty choice switches the subject filter off, any other value makes it that one-item list; the type filter is untouched |
| QuestionBank.SaveEdited | app/components/teacher/questions/QuestionBank.tsx:160-161 | same length; every entry with the edited id is replaced by the saved question and every other entry is kept |
| QuestionBank.SaveNew | app/components/teacher/questions/QuestionBank.tsx:162-163 | the old list followed by the question under the new time-based id |
| QuestionBank.Delete | app/components/teacher/questions/QuestionBank.tsx:316 | an order-keeping sublist holding exactly the questions whose id differs, each with all its copies |
| QuestionBank.DeleteIdempotent | app/components/teacher/questions/QuestionBank.tsx:316 | deleting the same id twice equals deleting it once |
| QuestionBank.SaveEditedChangesOne | app/components/teacher/questions/QuestionBank.tsx:160-161 | when the edited id is unique the save replaces that one position and nothing else |
| QuestionBank.IndexOf | app/components/teacher/questions/QuestionBank.tsx:420 | -1 exactly when the option is absent, otherwise the first position holding it |
| QuestionBank.InitialCorrectAnswer | app/components/teacher/questions/QuestionBank.tsx:417-424 | empty for no question or no answer; the option index as text (or empty when unlisted) for a multiple-choice question with options; the stored answer otherwise |
| QuestionBank.InitialForm | app/components/teacher/questions/QuestionBank.tsx:426-436 | the blank form for a new question; otherwise every field from the question: title and text, its kind and subject, its options or four blanks, the initial answer, points defaulting to 1 when 0, tags joined with ", ", the explanation or "" |
| QuestionBank.SubmittedAnswer | app/components/teacher/questions/QuestionBank.tsx:441-446 | a non-multiple-choice answer, and a multiple-choice entry that `Number` reads as NaN, pass through; any other multiple-choice entry becomes an option or ""; a blank one becomes "" and digits between spaces pick the option at their value, "" when out of range |
| QuestionBank.OptionAt | app/components/teacher/questions/QuestionBank.tsx:445 | the option at an index `parseInt` produced, and "" for NaN, a negative or a too-large index |
| QuestionBank.FractionEntry | app/components/teacher/questions/QuestionBank.tsx:443-446 | "1.5" picks the option at 1 |
| QuestionBank.ExponentEntry | app/components/teacher/questions/QuestionBank.tsx:443-446 | "1e0" picks the option at 1 |
| QuestionBank.NegativeEntry | app/components/teacher/questions/QuestionBank.tsx:443-446 | "-1" picks no option and gives "" |
| QuestionBank.InfinityEntry | app/components/teacher/questions/QuestionBank.tsx:443-446 | "Infinity" is a number but NaN to `parseInt`, so it gives "" |
| QuestionBank.HexEntry | app/components/teacher/questions/QuestionBank.tsx:443-446 | "0x3" is read in base 16 and picks the option at 3 |
| QuestionBank.WordEntry | app/components/teacher/questions/QuestionBank.tsx:443-446 | a word, and a numeral with a `_` separator, are NaN to `Number` and are kept as typed |
| QuestionBank.ParseTags | app/components/teacher/questions/QuestionBank.tsx:457 | the tags are the trimmed comma-separated pieces, in order, with exactly the empty ones dropped; each is non-empty with no surrounding whitespace |
| QuestionBank.TrimEach | app/components/teacher/questions/QuestionBank.tsx:457 | one trimmed piece per comma-separated piece |
| QuestionBank.NonBlank | app/components/teacher/questions/QuestionBank.tsx:453 | an order-keeping sublist of exactly the options that are not blank, each with all its copies |
| QuestionBank.Submit | app/components/teacher/questions/QuestionBank.tsx:438-465 | the saved question keeps the original id (or empty), uses the text as title, keeps non-blank options only for choice and true/false types, converts the answer, parses the tags, drops an empty explanation, defaults the author, and keeps the form's points and subject |
| QuestionBank.AnswerRoundTrip | app/components/teacher/questions/QuestionBank.tsx:417-446 | a listed multiple-choice answer survives the index conversion into the form and back |
| QuestionBank.UnlistedAnswerIsCleared | app/components/teacher/questions/QuestionBank.tsx:419-422 | a multiple-choice answer not among the options comes back empty |
| QuestionBank.TagsRoundTrip | app/components/teacher/questions/QuestionBank.tsx:434-457 | tags without commas or surrounding space survive join(", ") followed by the split, trim and filter |
| QuestionBank.Spaced | app/components/teacher/questions/QuestionBank.tsx:434 | the comma-separated pieces of the joined tags: the first tag and then each later tag behind one space |
| QuestionBank.JoinSpaced | app/components/teacher/questions/QuestionBank.tsx:434 | joining with ", " equals joining the spaced pieces with "," |
| QuestionBank.JoinShiftFirst | app/components/teacher/questions/QuestionBank.tsx:434 | prefixing the first piece prefixes the joined text |
| QuestionBank.EditRoundTrip | app/components/teacher/questions/QuestionBank.tsx:426-465 | opening a well-formed question in the form and submitting it unchanged gives back the same question |
| QuestionBank.OptionsRoundTrip | app/components/teacher/questions/QuestionBank.tsx:429-453 | options that are all non-blank pass the blank filter unchanged |
| QuestionBank.Bank.constructor | app/components/teacher/questions/QuestionBank.tsx:21-79 | the mock bank is loaded and shown, with no search, no filter, no dialog and nothing expanded |
| QuestionBank.Bank.ApplyFilters | app/components/teacher/questions/QuestionBank.tsx:83-107 | the loop leaves in the shown list exactly Shown of the bank, the search and the filters; nothing else changes |
| QuestionBank.Bank.SetSearchTerm | app/components/teacher/questions/QuestionBank.tsx:189 | the search term becomes the input's value; nothing else changes |
| QuestionBank.Bank.SetTypeFilter | app/components/teacher/questions/QuestionBank.tsx:213-216 | the filters become ChooseType of the old filters; nothing else changes |
| QuestionBank.Bank.SetSubjectFilter | app/components/teacher/questions/QuestionBank.tsx:230-233 | the filters become ChooseSubject of the old filters; nothing else changes |
| QuestionBank.Bank.ToggleExpansion | app/components/teacher/questions/QuestionBank.tsx:109-117 | the id is removed from the expanded set when present and added otherwise; nothing else changes |
| QuestionBank.Bank.OpenCreate | app/components/teacher/questions/QuestionBank.tsx:398 | the dialog opens; nothing else changes |
| QuestionBank.Bank.StartEdit | app/components/teacher/questions/QuestionBank.tsx:304-307 | the dialog opens on that question |
| QuestionBank.Bank.Save | app/components/teacher/questions/QuestionBank.tsx:158-167 | an edit replaces the edited question, a new one is appended under the new id; the dialog closes and editing ends |
| QuestionBank.Bank.Cancel | app/components/teacher/questions/QuestionBank.tsx:168-171 | the dialog closes and editing ends; the bank is untouched |
| QuestionBank.Bank.DeleteQuestion | app/components/teacher/questions/QuestionBank.tsx:316 | the bank becomes Delete of the old bank and that id; nothing else changes |
| StudentsPage.EverybodyByDefault | app/dashboard/teacher/students/page.tsx:33-35 | an empty search with both filters on "all" lists every student, in roster order |
| StudentsPage.SortKey | app/dashboard/teacher/students/page.tsx:211-238 | the compared value for each sort choice: lower-cased full name, lower-cased email, student number, enrolment time, GPA, and the lower-cased first name for any other choice |
| StudentsPage.UnknownSortIsFirstName | app/dashboard/teacher/students/page.tsx:235-237 | an unknown sort choice orders two students exactly as their lower-cased first names compare |
| StudentsPage.Ids | app/dashboard/teacher/students/page.tsx:289 | one id per listed student, position by position |
| StudentsPage.SelectAll | app/dashboard/teacher/students/page.tsx:285-291 | a selection as long as the list is cleared; any other becomes the ids of the listed students |
| StudentsPage.SelectAllTwice | app/dashboard/teacher/students/page.tsx:285-291 | pressing select-all twice on a non-empty list from no selection ends with nothing selected |
| StudentsPage.Cells | app/dashboard/teacher/students/page.tsx:302-311 | a student's CSV row has as many cells as the header |
| StudentsPage.Rows | app/dashboard/teacher/students/page.tsx:302-312 | one comma-joined line per listed student, in list order |
| StudentsPage.CsvLines | app/dashboard/teacher/students/page.tsx:299-312 | when no cell holds a line break the exported text splits into the header line followed by exactly one line per listed student |
| StudentsPage.HeaderHasNoBreak | app/dashboard/teacher/students/page.tsx:301 | the header line holds no line break |
| StudentsPage.RowHasNoBreak | app/dashboard/teacher/students/page.tsx:302-312 | a row whose cells hold no line break joins into a line without one |
| StudentsPage.SplitLines | app/dashboard/teacher/students/page.tsx:312 | lines without breaks joined by newlines split back into the same lines |
| StudentsPage.CsvColumns | app/dashboard/teacher/students/page.tsx:302-312 | when no cell holds a comma a student's line splits back into its eight cells |
| StudentsPage.Page.constructor | app/dashboard/teacher/students/page.tsx:33-41 | the roster listed in stored order, empty search, both filters "all", sorted by name ascending, nothing selected |
| StudentsPage.Page.ApplyFilters | app/dashboard/teacher/students/page.tsx:196-248 | the list becomes a permutation of the filtered roster, holds exactly the students that pass search, status and class, and is sorted by the chosen key in the chosen direction |
| StudentsPage.Page.SetSearchTerm | app/dashboard/teacher/students/page.tsx:452 | the search term becomes the input's value; nothing else changes |
| StudentsPage.Page.SetStatusFilter | app/dashboard/teacher/students/page.tsx:463 | the status filter becomes the chosen value; nothing else changes |
| StudentsPage.Page.SetClassFilter | app/dashboard/teacher/students/page.tsx:478 | the class filter becomes the chosen value; nothing else changes |
| StudentsPage.Page.SetSortBy | app/dashboard/teacher/students/page.tsx:493 | the sort choice becomes the chosen value; nothing else changes |
| StudentsPage.Page.FlipSortOrder | app/dashboard/teacher/students/page.tsx:507 | ascending becomes descending and back; nothing else changes |
| StudentsPage.Page.SelectStudent | app/dashboard/teacher/students/page.tsx:277-283 | the id is removed from the selection when present and appended otherwise |
| StudentsPage.Page.SelectAllShown | app/dashboard/teacher/students/page.tsx:285-291 | the selection becomes SelectAll of the old selection and the listed students |
| StudentsPage.Page.BulkAction | app/dashboard/teacher/students/page.tsx:293-297 | the alert names the action and the number of selected students, and the selection is emptied |
| MyExams.EverythingByDefault | app/dashboard/teacher/my-exams/page.tsx:34-74 | an empty search with "All Status" lists every exam, in store order |
| MyExams.SortKey | app/dashboard/teacher/my-exams/page.tsx:77-99 | the compared value: lower-cased title for "title", the status name for "status", the creation time for every other choice |
| MyExams.StartDateIsCreatedAt | app/dashboard/teacher/my-exams/page.tsx:89-99 | a list is sorted by "startDate" exactly when it is sorted by "createdAt" |
| MyExams.TotalPoints | app/dashboard/teacher/my-exams/page.tsx:252 | the points badge is 0 for no questions, the question's points for one, and never negative when no question has negative points |
| MyExams.ReducePointsFrom | app/dashboard/teacher/my-exams/page.tsx:252 | the page's `reduce` from a start value gives that value plus the points badge |
| MyExams.TotalPointsIsReduce | app/dashboard/teacher/my-exams/page.tsx:252 | the page's `reduce` from 0 gives exactly the points badge |
| MyExams.TotalPointsAppend | app/dashboard/teacher/my-exams/page.tsx:252 | the badge of two question lists put together is the sum of their badges |
| MyExams.ToggleMenu | app/dashboard/teacher/my-exams/page.tsx:280 | the clicked card's menu is open afterwards exactly when it was not open before |
| MyExams.Page.constructor | app/dashboard/teacher/my-exams/page.tsx:34-51 | no exams, empty search, "All Status", newest first by creation time, no menu open |
| MyExams.Page.Load | app/dashboard/teacher/my-exams/page.tsx:41-47 | the page's exams become the store's list after due exams are promoted, and the store keeps that list |
| MyExams.Page.ApplyFilters | app/dashboard/teacher/my-exams/page.tsx:68-108 | the list becomes a permutation of the filtered exams, holds exactly those whose title or description contains the search and whose status passes, sorted by the chosen key and direction |
| MyExams.Page.SetSearchTerm | app/dashboard/teacher/my-exams/page.tsx:194 | the search term becomes the input's value; nothing else changes |
| MyExams.Page.SetStatusFilter | app/dashboard/teacher/my-exams/page.tsx:200 | the status filter becomes the chosen value; nothing else changes |
| MyExams.Page.SetSortBy | app/dashboard/teacher/my-exams/page.tsx:217 | the sort choice becomes the chosen value; nothing else changes |
| MyExams.Page.FlipSortOrder | app/dashboard/teacher/my-exams/page.tsx:232 | ascending becomes descending and back; nothing else changes |
| MyExams.Page.ClickMenu | app/dashboard/teacher/my-exams/page.tsx:280 | the open menu becomes ToggleMenu of the old one and the clicked id |
| MyExams.Page.CloseMenu | app/dashboard/teacher/my-exams/page.tsx:55-66 | no menu is open afterwards; nothing else changes |
| MyExams.Page.Duplicate | app/dashboard/teacher/my-exams/page.tsx:140-144 | the menu closes, the store gains a copy of the exam at the front when it exists, and the alert names the exam; the search, filter and sort choices are kept |
| MyExams.Page.Archive | app/dashboard/teacher/my-exams/page.tsx:146-149 | the menu closes, the exam in the store is marked archived with the new update time, and the alert names it; the search, filter and sort choices are kept |
| MyExams.Page.Delete | app/dashboard/teacher/my-exams/page.tsx:151-156 | the menu closes; without confirmation nothing else happens, with it the exam leaves the store and the alert names it; the search, filter and sort choices are kept |
| StudentPage.SafeDate | app/dashboard/student/page.tsx:107-114 | no date for a missing or empty value, otherwise the parse result, which is none for an invalid date |
| StudentPage.MergeSettings | app/dashboard/student/page.tsx:96-120 | no settings give the all-false defaults; otherwise each key sent wins and each missing key is false |
| StudentPage.FullSettingsKept | app/dashboard/student/page.tsx:117-120 | an exam that sends every setting keeps exactly the sent settings |
| StudentPage.ParseExam | app/dashboard/student/page.tsx:116-135 | the display exam keeps id, title, status and duration, reads the three dates safely and merges the settings over the defaults |
| StudentPage.ParseAttempt | app/dashboard/student/page.tsx:137-146 | the score survives exactly when it is a number; the dates are read safely and the identifying fields are kept |
| StudentPage.FormatDateTime | app/dashboard/student/page.tsx:148-159 | "Not scheduled" without a date, otherwise the date's localised text |
| StudentPage.HoursAndMinutes | app/dashboard/student/page.tsx:173-174 | the whole hours and leftover whole minutes bracket the span: within one minute below it |
| StudentPage.TimeUntilStart | app/dashboard/student/page.tsx:161-186 | "Schedule not set" without a start; "Available now" exactly when the start is not in the future; otherwise days when 24 hours or more, else hours and minutes, else minutes |
| StudentPage.DaysAway | app/dashboard/student/page.tsx:176-179 | a start between d and d+1 days away reads "Starts in d day", plural unless d is 1 |
| StudentPage.CanStartExam | app/dashboard/student/page.tsx:188-204 | true exactly when the status is published or ongoing, the start (if any) is not in the future and the end (if any) is not in the past |
| StudentPage.Round | app/dashboard/student/page.tsx:211 | the nearest whole number, halves rounding up |
| StudentPage.ScoreLabel | app/dashboard/student/page.tsx:206-212 | "Pending grading" exactly for a missing score, otherwise the rounded score followed by "%" |
| StudentPage.UngradedAttemptLabel | app/dashboard/student/page.tsx:137-146 | an attempt whose score is not a number is labelled "Pending grading" |
| StudentDashboard.RecentAttempts | app/api/student/dashboard/route.ts:64-96 | at most 10 rows, each the student's own submitted attempt: the first ones of the filtered rows in query order, all of them when there are 10 or fewer |
| StudentDashboard.UpcomingExams | app/api/student/dashboard/route.ts:127-129 | a permutation of the exams whose start lies ahead, holding exactly those, in non-decreasing start order |
| StudentDashboard.SortedUpcoming | app/api/student/dashboard/route.ts:127-129 | any rearrangement of the not-yet-started exams sorted by start time holds exactly those exams, each starting after now, earliest first |
| StudentDashboard.SameMembers | app/api/student/dashboard/route.ts:127-129 | two lists with the same multiset hold the same exams |
| StudentDashboard.StartsInOrder | app/api/student/dashboard/route.ts:129 | a list sorted by the comparator's start key, all of whose exams have a start, is in start order |
| StudentDashboard.SerializeExam | app/api/student/dashboard/route.ts:98-110 | an empty description for a missing one, the lower-cased status, the creator as teacher, and a start or end text exactly when the row has one |
| StudentDashboard.SerializeExams | app/api/student/dashboard/route.ts:112-130 | one serialized exam per row, position by position |
| StudentDashboard.Percentage | app/api/student/dashboard/route.ts:133-144 | no score exactly when neither the submission nor the attempt has one; the submission's score, else the attempt's, over a positive submission total as a two-decimal percentage; otherwise that raw score to two decimals; each of the five cases is stated separately |
| StudentDashboard.SerializeAttempt | app/api/student/dashboard/route.ts:146-155 | the attempt's percentage as score, the lower-cased status, and the identifying fields kept |
| StudentDashboard.SerializeAttempts | app/api/student/dashboard/route.ts:132-156 | one serialized attempt per row, position by position |
| StudentDashboard.ScoreSumBounds | app/api/student/dashboard/route.ts:165 | scores between lo and hi, a missing one counting as 0, sum to between n·lo and n·hi |
| StudentDashboard.MeanScoreIsPercentage | app/api/student/dashboard/route.ts:161-169 | when every shown score is between 0 and 100 the mean is too |
| StudentDashboard.ComputeStats | app/api/student/dashboard/route.ts:158-171 | the three counts are the list lengths; the average is 0 with no attempts, else the mean to two decimals |
| StudentDashboard.AverageIsPercentage | app/api/student/dashboard/route.ts:161-169 | when every shown score is between 0 and 100 the rounded average is too |
| StudentDashboard.PercentageBounded | app/api/student/dashboard/route.ts:139-140 | a submission scoring between 0 and its positive total shows between 0 and 100 |
| StudentDashboard.Build | app/api/student/dashboard/route.ts:45-171 | the listed exams are the student's enrolled published, ongoing or completed ones; available and upcoming lists and the recent attempts are derived from them, and the counts match the lists; the average score is 0 without attempts, otherwise the mean shown score rounded to two places, and it lies between 0 and 100 when every shown score does |
| StudentDashboard.Get | app/api/student/dashboard/route.ts:43-176 | a student gets status 200 and the built dashboard; everyone else gets the student guard's error |
| StudentDashboard.ReadIso | app/api/student/dashboard/route.ts:104-109 | a readable ISO text of a time parses back to that time |
| StudentDashboard.AvailableIsCanStart | app/api/student/dashboard/route.ts:112-124 | the route's availability filter agrees with the page's start rule on the exam as it is sent |
| StudentDashboard.AvailableNotUpcoming | app/api/student/dashboard/route.ts:112-130 | no exam is both available and upcoming |
| StudentDashboard.SentListsDisjoint | app/api/student/dashboard/route.ts:112-130 | no serialized exam appears in both lists |
| StudentDashboard.CompletedCanBeUpcoming | app/api/student/dashboard/route.ts:56 | a completed exam with a future start is listed as upcoming although it is never available |
| StudentDashboard.HiddenStatuses | app/api/student/dashboard/route.ts:55-57 | draft and archived exams are not listed |
| TeacherClasses.TruthyTexts | app/api/teacher/classes/route.ts:30-33 | every kept value is non-empty and present in the column, and every non-empty value of the column is kept |
| TeacherClasses.TruthyYears | app/api/teacher/classes/route.ts:36 | every kept year is non-zero and present in the column, and every non-zero year of the column is kept |
| TeacherClasses.DistinctTexts | app/api/teacher/classes/route.ts:30-33 | each non-empty value of the column exactly once, nothing else, in the order of first occurrence |
| TeacherClasses.Years | app/api/teacher/classes/route.ts:36 | a permutation of the distinct non-zero years, without duplicates, sorted by their decimal text |
| TeacherClasses.DistinctYears | app/api/teacher/classes/route.ts:36 | each non-zero year of some student exactly once, and nothing else |
| TeacherClasses.YearsSortAsText | app/api/teacher/classes/route.ts:36 | the default sort puts year 10 before year 9 |
| TeacherClasses.NewEntry | app/api/teacher/classes/route.ts:43-50 | the new entry stands for the student's key, starts at count 0, and holds falsy parts as absent |
| TeacherClasses.KeysCanCollide | app/api/teacher/classes/route.ts:43 | two students with different branches and divisions can share one key, so the second is counted in the first one's class |
| TeacherClasses.Values | app/api/teacher/classes/route.ts:56 | the map's entries listed in key insertion order |
| TeacherClasses.TotalAppend | app/api/teacher/classes/route.ts:56 | the count sum of two entry lists put together is the sum of their sums |
| TeacherClasses.TotalUpdate | app/api/teacher/classes/route.ts:52 | replacing one entry changes the count sum by the change of its count |
| TeacherClasses.TotalPermutation | app/api/teacher/classes/route.ts:56-61 | rearranging the entries keeps the count sum |
| TeacherClasses.CountKeyAppend | app/api/teacher/classes/route.ts:41-42 | one more student adds one to the count of its key exactly when it has a class |
| TeacherClasses.StepExisting | app/api/teacher/classes/route.ts:44-52 | a student whose key exists keeps the grouping invariant: unique keys, each entry counting the students of its key, counts summing to the students with a class |
| TeacherClasses.TotalReplace | app/api/teacher/classes/route.ts:52 | replacing the entry of one listed key changes the count sum by the change of its count |
| TeacherClasses.StepNew | app/api/teacher/classes/route.ts:44-52 | a student with a new key keeps the grouping invariant |
| TeacherClasses.StepKeeps | app/api/teacher/classes/route.ts:41-54 | every turn of the loop keeps the grouping invariant |
| TeacherClasses.StepLabelled | app/api/teacher/classes/route.ts:43-52 | a turn stores a new entry under the key its own branch, division and year form, and changes only the count of an existing one |
| TeacherClasses.Group | app/api/teacher/classes/route.ts:39-54 | the finished map has unique keys in insertion order, each entry is stored under its own key and counts exactly the students with that key, and the counts sum to the number of students with a class |
| TeacherClasses.Classes | app/api/teacher/classes/route.ts:39-61 | the classes are a permutation of the map's entries, sorted by year, branch and division, all counts positive, summing to the students with a class |
| TeacherClasses.SortedClassesCounted | app/api/teacher/classes/route.ts:56-61 | any rearrangement of the grouped entries keeps every count positive and their sum equal to the students with a class |
| TeacherClasses.FillClassMap | app/api/teacher/classes/route.ts:39-54 | the loop builds exactly the grouping of the students |
| TeacherClasses.CountStudent | app/api/teacher/classes/route.ts:42-53 | one loop body: creates the entry for a new key, then adds one to it |
| TeacherClasses.AddStudent | app/api/teacher/classes/route.ts:41 | grouping one more student is one more loop step |
| TeacherClasses.Get | app/api/teacher/classes/route.ts:7-72 | teachers and admins get status 200 with the distinct branches, divisions, sorted years and sorted classes of the selected students; everyone else gets the teacher guard's error |
| TeacherStudents.NameParts | app/api/teacher/students/route.ts:67-68 | a name without a space is all first name; otherwise it is its first piece, a space and the last name, and the first name is that piece unless it is empty |
| TeacherStudents.GradePoints | app/api/teacher/students/route.ts:56-60 | an attempt whose submission total is zero or less scores 0 on the 4-point scale |
| TeacherStudents.GradeSumBounds | app/api/teacher/students/route.ts:61 | grades between 0 and 4 sum to between 0 and 4 per attempt |
| TeacherStudents.GpaOnScale | app/api/teacher/students/route.ts:54-78 | when every grade is between 0 and 4 the average and the two-decimal GPA shown are too |
| TeacherStudents.Record | app/api/teacher/students/route.ts:31-87 | credits are 3 per completed attempt; no completed attempt gives GPA 0 and "regular"; the GPA is the average grade rounded to two places, on the 0-4 scale when every grade is; "honors" exactly when the average is 3.5 or more; the name is split and the one exam is the enrolled class |
| TeacherStudents.StudentRecords | app/api/teacher/students/route.ts:30-88 | one record per enrollment, position by position |
| TeacherStudents.Ids | app/api/teacher/students/route.ts:92 | the ids of the records, position by position |
| TeacherStudents.StudentIds | app/api/teacher/students/route.ts:26 | the student ids of the enrollments, position by position |
| TeacherStudents.TeacherEnrollments | app/api/teacher/students/route.ts:11-27 | only rows of the teacher's exams, one per student, in the order the students first appear |
| TeacherStudents.FirstPerStudent | app/api/teacher/students/route.ts:26 | each student's first row, in order of first appearance |
| TeacherStudents.IndexById | app/api/teacher/students/route.ts:92 | -1 exactly when no record has the id, otherwise a position holding it |
| TeacherStudents.ClassesOfAbsent | app/api/teacher/students/route.ts:91-102 | an id no record has collects no classes |
| TeacherStudents.ClassesOfAppend | app/api/teacher/students/route.ts:97-99 | one more record adds its classes to its own id's collection only |
| TeacherStudents.MergeStepKeeps | app/api/teacher/students/route.ts:91-102 | each turn of the reduce keeps one record per id in first-appearance order, each with its first record's fields and the classes of all records with that id |
| TeacherStudents.MergeNewFields | app/api/teacher/students/route.ts:93-94 | pushing a new id keeps every record equal to the first one with its id |
| TeacherStudents.MergeNewClasses | app/api/teacher/students/route.ts:93-94 | pushing a new id keeps every record's classes equal to those of all records with its id |
| TeacherStudents.MergeKnownFields | app/api/teacher/students/route.ts:95-99 | merging a known id changes no field but the classes |
| TeacherStudents.MergeKnownClasses | app/api/teacher/students/route.ts:95-99 | merging a known id unites its classes and leaves the other records alone |
| TeacherStudents.MergedMerges | app/api/teacher/students/route.ts:91-102 | the reduce's result: one record per id in first-appearance order, each the first record with its id carrying the classes of all of them |
| TeacherStudents.MergeStepIds | app/api/teacher/students/route.ts:91-99 | a turn of the reduce keeps the accumulator's ids when the id is known and appends it when it is new |
| TeacherStudents.MergedOfDistinct | app/api/teacher/students/route.ts:91-102 | records with distinct ids come through unchanged |
| TeacherStudents.UniqueStudents | app/api/teacher/students/route.ts:91-102 | the loop that pushes or merges computes exactly Merged of the records |
| TeacherStudents.OwnTitles | app/api/teacher/students/route.ts:105-118 | the titles of the teacher's own exams, position by position, in list order |
| TeacherStudents.ClassTitles | app/api/teacher/students/route.ts:105-118 | the distinct titles of the teacher's exams: every such title once, and nothing else |
| TeacherStudents.ClassTitlesOrder | app/api/teacher/students/route.ts:105-118 | the distinct titles come in the order of their first occurrence among the teacher's exams |
| TeacherStudents.Get | app/api/teacher/students/route.ts:6-123 | teachers and admins get status 200 with the merged records, one per id, and the distinct titles; everyone else gets the teacher guard's error |
| DemoData.JavaScriptQuizFirstHalf | app/lib/demoData.ts:38-82 | the JavaScript quiz lists 10 questions and the first five have four options with the key among them |
| DemoData.JavaScriptQuizSecondHalf | app/lib/demoData.ts:83-120 | the last five questions of the JavaScript quiz have four options with the key among them |
| DemoData.JavaScriptQuizKeyed | app/lib/demoData.ts:38-120 | the JavaScript quiz announces as many questions as it lists (10), and every one has four options with the key among them |
| DemoData.ReactQuizKeyed | app/lib/demoData.ts:121-188 | the React quiz announces as many questions as it lists (8), and every one has four options with the key among them |
| DemoData.AlgebraQuizKeyed | app/lib/demoData.ts:189-284 | the algebra quiz announces as many questions as it lists (12), and every one has four options with the key among them |
| DemoData.CountCorrect | app/lib/demoData.ts:290-306 | the count is the length of the answers filtered to those marked correct, so at most the number of answers |
| DemoData.DemoResultGraded | app/lib/demoData.ts:286-308 | the demo result is the JavaScript quiz graded against its key: the answers follow the questions, each mark says whether the key was picked, the score is 8 of 10 and the percentage 80 |
| DemoData.ResultMarksFirstHalf | app/lib/demoData.ts:295-300 | the demo result has one answer per question of its quiz, and the first five answer their question with a mark that says whether the key was picked |
| DemoData.ResultMarksSecondHalf | app/lib/demoData.ts:301-306 | the last five answers of the demo result answer their question with a mark that says whether the key was picked |
| DemoData.ResultScore | app/lib/demoData.ts:290-306 | the demo result marks exactly 8 answers correct |
| DemoData.StudentView | app/lib/demoData.ts:366-376 | one student exam per exam, in order, carrying every field and every question except the answer |
| DemoData.ViewFor | app/lib/demoData.ts:361-377 | a teacher gets the exams themselves; a student gets the same number of exams with everything but the answers |
| DemoData.Key | app/lib/demoData.ts:361-377 | one answer key per question |
| DemoData.RestoreAnswers | app/lib/demoData.ts:366-376 | the answers are all the student view lacks: putting the key back gives the exam again |
| DemoData.FindUser | app/lib/demoData.ts:387-389 | none exactly when no user has the id, otherwise the first user with it |
| DemoData.UserById | app/lib/demoData.ts:387-389 | none exactly when no demo user has the id, otherwise a demo user with it |
| DemoData.StudentResults | app/lib/demoData.ts:379-381 | an order-keeping sublist of the results holding exactly those of the student, each with all its copies |
| DemoData.SubmissionsByExam | app/lib/demoData.ts:383-385 | an order-keeping sublist of the submissions holding exactly those of the exam, each with all its copies |
| DemoData.StudentsIn | app/lib/demoData.ts:391-393 | over any user list, an order-keeping sublist holding exactly the students, each with all its copies |
| DemoData.Students | app/lib/demoData.ts:391-393 | an order-keeping sublist of the users holding exactly the students, each with all its copies |
| DemoData.EventsFor | app/lib/demoData.ts:396-397 | every event for a missing or empty exam id, otherwise an order-keeping sublist of exactly that exam's events, each with all its copies |
| DemoData.MonitoringEventsFor | app/lib/demoData.ts:351-397 | the demo monitoring events filtered the same way |
| Plagiarism.CollapseShape | app/lib/plagiarism.ts:5 | after collapsing, ' ' is the only whitespace left, no two spaces are adjacent, and only an empty text collapses to empty |
| Plagiarism.WithoutSpaces | app/lib/plagiarism.ts:15 | the result is no longer than the input and holds no whitespace |
| Plagiarism.WithoutSpacesConcat | app/lib/plagiarism.ts:15 | removing whitespace from two texts put together is removing it from each |
| Plagiarism.NoSpacesInFront | app/lib/plagiarism.ts:8-15 | trimming the front first does not change the space-free text |
| Plagiarism.StripPunctuation | app/lib/plagiarism.ts:6 | every character kept is a word character or whitespace taken from the input |
| Plagiarism.NormalizeShape | app/lib/plagiarism.ts:3-9 | a normalised text has no surrounding whitespace and holds only lower-case word characters and plain spaces |
| Plagiarism.StripKeeps | app/lib/plagiarism.ts:6 | stripping a text whose only whitespace is ' ' keeps only word characters and ' ' |
| Plagiarism.LowerNormal | app/lib/plagiarism.ts:7 | lower-casing such a text gives only normal characters |
| Plagiarism.LowerKept | app/lib/plagiarism.ts:7 | a kept character other than a non-' ' space lower-cases to a normal character |
| Plagiarism.TrimNormal | app/lib/plagiarism.ts:8 | trimming a text of normal characters leaves normal characters |
| Plagiarism.DoubleSpaceRemains | app/lib/plagiarism.ts:3-9 | punctuation between two spaces leaves a double space: "a , b" normalises to "a  b" |
| Plagiarism.CollapseExample | app/lib/plagiarism.ts:5 | "a , b" has no whitespace run to collapse |
| Plagiarism.CollapseCollapsed | app/lib/plagiarism.ts:5 | a text using only ' ' as whitespace with no two side by side is left unchanged |
| Plagiarism.CollapseIdempotent | app/lib/plagiarism.ts:5 | collapsing twice equals collapsing once |
| Plagiarism.StripExample | app/lib/plagiarism.ts:6 | stripping "a , b" leaves "a  b" |
| Plagiarism.LowerTrimExample | app/lib/plagiarism.ts:7-8 | "a  b" is unchanged by lower-casing and trimming |
| Plagiarism.LowerPlain | app/lib/plagiarism.ts:7 | a text without upper-case letters is unchanged by lower-casing |
| Plagiarism.WindowsShape | app/lib/plagiarism.ts:20-22 | the first k windows give at most k grams, each of length 3, each cut at one of those positions |
| Plagiarism.GramsShape | app/lib/plagiarism.ts:15-23 | a joined text of at most 3 characters is its only gram, even when empty; a longer one gives exactly its length-3 substrings, at most length-2 of them |
| Plagiarism.NGrams | app/lib/plagiarism.ts:11-24 | the method computes exactly the gram set of the normalised, space-free text |
| Plagiarism.CutGrams | app/lib/plagiarism.ts:16-23 | the loop collects exactly the gram set of the joined text |
| Plagiarism.Jaccard | app/lib/plagiarism.ts:26-32 | the loop computes the similarity: shared grams over all grams, 0 for two empty sets |
| Plagiarism.SubsetSize | app/lib/plagiarism.ts:28-31 | a subset is no larger than its superset |
| Plagiarism.RatioAtMostOne | app/lib/plagiarism.ts:31 | a ratio of a part to a positive whole lies between 0 and 1 |
| Plagiarism.SimilarityBounds | app/lib/plagiarism.ts:26-32 | the similarity is symmetric and lies between 0 and 1 |
| Plagiarism.SimilarityExtremes | app/lib/plagiarism.ts:26-32 | two empty sets score 0 and two equal non-empty sets score 1 |
| Plagiarism.EmptyAnswersMatch | app/lib/plagiarism.ts:11-32 | two answers that both normalise to empty both give the gram set {""} and so match at 100 % |
| Plagiarism.EmptyAnswerGrams | app/lib/plagiarism.ts:15-18 | an answer that normalises to empty gives the gram set {""} |
| Plagiarism.EmptyJoined | app/lib/plagiarism.ts:12-15 | an answer that normalises to empty has an empty joined text |
| Plagiarism.Texts | app/lib/plagiarism.ts:54-75 | one answer text per row: a string as it is, anything else as its JSON text |
| Plagiarism.AttemptIds | app/lib/plagiarism.ts:73-75 | the attempt id of each row, position by position |
| Plagiarism.AddRowKeeps | app/lib/plagiarism.ts:73-76 | pushing one more row's text keeps every attempt's list equal to its rows' texts in order, with keys in first-appearance order |
| Plagiarism.AddRowKeys | app/lib/plagiarism.ts:74 | the key list grows exactly when the row's attempt is new |
| Plagiarism.AddRowTexts | app/lib/plagiarism.ts:74-75 | only the row's own attempt gains the row's text, at the end |
| Plagiarism.TextsOfAbsent | app/lib/plagiarism.ts:72-76 | an attempt without rows has no texts |
| Plagiarism.GroupByAttempt | app/lib/plagiarism.ts:72-76 | the loop groups the rows: keys in first-appearance order, each with its rows' texts in row order |
| Plagiarism.PercentBounds | app/lib/plagiarism.ts:84-90 | a similarity between 0 and 1 gives a one-decimal percentage between 0 and 100, which the final rounding keeps |
| Plagiarism.MatchesForAt | app/lib/plagiarism.ts:78-87 | the k-th match belongs to the k-th grouped attempt |
| Plagiarism.MatchesFor | app/lib/plagiarism.ts:78-87 | one match per grouped attempt |
| Plagiarism.MaxPercentIsLargest | app/lib/plagiarism.ts:79-86 | with no negative percentage the running maximum is the largest one, attained by some match, and 0 without matches |
| Plagiarism.CompareOne | app/lib/plagiarism.ts:81-85 | one turn gives the attempt's match, a one-decimal percentage between 0 and 100 |
| Plagiarism.CompareStep | app/lib/plagiarism.ts:78-87 | appending one turn's match extends the matches of the keys seen so far by the next key, keeps every percentage in range, and updates the running maximum exactly when the new percentage is larger |
| Plagiarism.CompareAll | app/lib/plagiarism.ts:78-87 | the loop produces one match per grouped attempt, in key order, and the running maximum |
| Plagiarism.FinalPercent | app/lib/plagiarism.ts:90 | the score is at least every match's percentage, at most 100, one of them when there is any, and 0 otherwise |
| Plagiarism.ComputePlagiarism | app/lib/plagiarism.ts:39-93 | the report counts the own grams, lists one match per other submitted attempt in sorted-row order, and scores the largest percentage, 0 when there is no other attempt |
| Cookies.StripSpaces | app/lib/cookies.ts:26 | the result is no longer than the segment and does not start with ' ' |
| Cookies.StripSpacesSuffix | app/lib/cookies.ts:26 | only leading ' ' characters are removed: the result is a suffix and everything before it was ' ' |
| Cookies.MatchIndex | app/lib/cookies.ts:24-28 | the first segment that starts with the name and '=' after its leading spaces, or the segment count when none does |
| Cookies.FirstValue | app/lib/cookies.ts:24-29 | no value exactly when no segment matches the name |
| Cookies.GetCookie | app/lib/cookies.ts:18-30 | nothing without a document; otherwise the loop returns the part after "name=" of the first matching segment, or nothing |
| Cookies.WholeNameOnly | app/lib/cookies.ts:21-27 | because the match includes '=', a segment "other=value" with a plain name matches only its own name |
| Cookies.LongerNameNotFound | app/lib/cookies.ts:21-27 | looking up "a" in "ab=1" finds nothing |
| Cookies.Segments | app/lib/cookies.ts:22 | the semicolon-separated segments of a cookie string, each after the first starting with one space |
| Cookies.SegmentHolds | app/lib/cookies.ts:24-28 | a pair's segment matches exactly its own name and gives its value |
| Cookies.FirstValueFrom | app/lib/cookies.ts:24-28 | among segments of distinct plain names, each name is found in its own segment |
| Cookies.RoundTrip | app/lib/cookies.ts:18-30 | for "n1=v1; n2=v2; …" with distinct plain names and values without ';', each name reads back its value |
| Cookies.TrailingSpacesKept | app/lib/cookies.ts:26-27 | only leading spaces go: " a=b  " gives "b  " for "a" |
| Cookies.GetCookies | app/lib/cookies.ts:38-46 | logged in exactly when the isLoggedIn cookie is "true"; the other four fields are the cookies of their names |
| Cookies.IsAuthenticated | app/lib/cookies.ts:72-74 | true exactly when the isLoggedIn cookie is "true" |
| Cookies.GetUserType | app/lib/cookies.ts:77-79 | the userType cookie, unchecked |
| Cookies.GetCurrentUser | app/lib/cookies.ts:82-94 | id, name, email and type are the userId, userName, email and userType cookies |
| Cookies.SetCookieSegments | app/lib/cookies.ts:11-15 | the text setCookie writes splits at ';' into the pair, the expiry and the three attributes |
| Cookies.SetCookieReadsBack | app/lib/cookies.ts:11-30 | the text setCookie writes, read as a cookie string, gives back the value under its name |
| Cookies.DeleteCookieReadsEmpty | app/lib/cookies.ts:18-35 | the text deleteCookie writes, read as a cookie string, gives the empty value under its name |
| Cookies.AuthCookieWrites | app/lib/cookies.ts:49-60 | setAuthCookies makes five writes |
| Cookies.AuthCookiesReadBack | app/lib/cookies.ts:49-60 | each write of setAuthCookies reads back its value, and the first says logged in |
| Cookies.ClearAuthCookieWrites | app/lib/cookies.ts:63-69 | clearAuthCookies makes five writes |
| Cookies.ClearAuthCookiesReadEmpty | app/lib/cookies.ts:63-69 | each write of clearAuthCookies reads back an empty value under its name |
| Storage.LastPieceShape | app/lib/storage.ts:38 | the last piece of a split at '.' is a suffix free of '.', and is either the whole text or follows a '.' |
| Storage.LastPieceStep | app/lib/storage.ts:38 | one step of the split: the last piece of the rest stays the last piece unless there is no separator at all |
| Storage.SplitSeveral | app/lib/storage.ts:38 | a text that splits into several pieces holds the separator |
| Storage.SuffixWithout | app/lib/storage.ts:38 | a separator-free suffix of a text with the separator is shorter than it |
| Storage.Extension | app/lib/storage.ts:38 | the extension is never empty and holds no '.': the text after the last '.', or "jpg" when that is empty |
| Storage.ExtensionWithoutDot | app/lib/storage.ts:38 | a name without '.' is its own extension, an empty name gets "jpg" |
| Storage.ExtensionAfterDot | app/lib/storage.ts:38-39 | the extension of base + "." + ext is ext |
| Storage.GeneratedExtension | app/lib/storage.ts:35-40 | the generated file name keeps the original's extension |
| Storage.UploadToLocal | app/lib/storage.ts:77-96 | the key is "snapshots/" and the generated name, the URL "/uploads/" and the key, and the size the buffer's |
| Storage.UploadToS3 | app/lib/storage.ts:43-64 | the same key, a URL on the bucket's regional S3 host, and the buffer's size |
| Storage.UploadFile | app/lib/storage.ts:99-107 | "s3" uploads to S3 and every other provider uploads locally |
| Storage.DropLeadingSlashes | app/lib/storage.ts:116 | the result is the key's suffix left once the leading '/' characters are gone, and does not start with '/' |
| Storage.GetFileUrl | app/lib/storage.ts:110-118 | the signed URL for "s3", otherwise "/uploads/" and the key without leading slashes |
| Storage.LocalUrlMatches | app/lib/storage.ts:88-116 | a local upload is served under the URL it reported |
| Storage.LocalFileBuffer | app/lib/storage.ts:120-130 | nothing unless the provider is local, otherwise what reading the file gives, nothing on error |
| Storage.WordRun | app/lib/storage.ts:135 | the length of the run of word characters at the front |
| Storage.PrefixLength | app/lib/storage.ts:135 | when the regex matches at the start, how long the match is, within the text |
| Storage.Base64Data | app/lib/storage.ts:135 | the text unchanged without a match, otherwise the text after the matched prefix |
| Storage.DataUrlPayload | app/lib/storage.ts:133-137 | a data URL with a word-character image subtype gives back exactly its payload |
| Storage.WordRunOf | app/lib/storage.ts:135 | the word run of a word followed by a non-word character is that word |
| Storage.PrefixRemovedOnce | app/lib/storage.ts:135 | the prefix is removed once: a payload that itself starts with one keeps it |
| Storage.OnlyAtStart | app/lib/storage.ts:135 | a text that does not start with "data:image/" is decoded as it is |
| Storage.ValidateFileSize | app/lib/storage.ts:140-143 | accepted exactly when the size is at most maxSizeMB mebibytes |
| Storage.FileSizeBoundary | app/lib/storage.ts:140-143 | with the default 5, exactly 5 MiB passes and one byte more does not; any smaller size passes when a size passes |
| Storage.ValidateImageType | app/lib/storage.ts:146-149 | accepted exactly for image/jpeg, image/png and image/webp |
| Snapshots.First | app/api/media/snapshots/route.ts:30-33 | none exactly when no row is accepted, otherwise an accepted row of the table |
| Snapshots.Latest | app/api/media/snapshots/route.ts:34-62 | none exactly when no row is accepted, otherwise an accepted row whose time no other accepted row exceeds |
| Snapshots.Located | app/api/media/snapshots/route.ts:29-41 | by id when an attempt id is given, otherwise the latest-started attempt of that student in that exam; none exactly when no row qualifies |
| Snapshots.LatestWebcam | app/api/media/snapshots/route.ts:56-62 | none exactly when the attempt has no webcam snapshot, otherwise its most recent one |
| Snapshots.MimeOfKey | app/api/media/snapshots/route.ts:74-75 | always one of PNG, WebP and JPEG |
| Snapshots.Get | app/api/media/snapshots/route.ts:17-92 | 401 without a user, 400 without attempt id or exam and student ids, 404 without an attempt, 403 for anyone but an admin, the attempt's student or the exam's creator; otherwise 200 with nothing or the latest webcam snapshot, its served URL, and inline data exactly when storage is local and the file reads |
| Snapshots.ViewersOfAttempt | app/api/media/snapshots/route.ts:47-54 | only an admin, the attempt's own student or the teacher who created the exam may view |
| Snapshots.UploadSchema | app/api/media/snapshots/route.ts:9-14 | accepted exactly for a cuid attempt id, a string image and a known type or none; the parsed upload keeps the fields and defaults the type to WEBCAM |
| Snapshots.ContentTypeOf | app/api/media/snapshots/route.ts:122-128 | PNG exactly for a "data:image/png" prefix, WebP for a "data:image/webp" one otherwise, and JPEG for everything else |
| Snapshots.SubtypeOfImage | app/api/media/snapshots/route.ts:137 | the part after '/' of "image/ext" is ext |
| Snapshots.RecordMetadata | app/api/media/snapshots/route.ts:155-158 | the stored metadata is the client's with contentType set by the route |
| Snapshots.Post | app/api/media/snapshots/route.ts:95-166 | 401 without a user; an unreadable body answers through the error handler; a body failing the schema is 400 "Validation error" with its issues; 404 for an unknown attempt; 403 for someone else's attempt unless admin; 400 with the size limit in the message for an image over the limit; success exactly when validation, ownership and the size check pass, with status 201 and a record whose key serves the chosen content type and whose URL and key are those of the upload |
| Snapshots.StoreSnapshot | app/api/media/snapshots/route.ts:122-160 | the content type is sniffed from the data-URL prefix; the record carries the new id, the attempt, the type, the size, the client metadata with the content type, and a storage key that serves that content type; its URL and key are those the upload returns |
| Snapshots.KeyExtension | app/api/media/snapshots/route.ts:135-137 | the stored key of an upload named "….ext" ends in that extension |
| Snapshots.MimeOfEnding | app/api/media/snapshots/route.ts:74-75 | a key ending in png, webp or jpeg is served as that image type |
| Snapshots.StoredKeyServesType | app/api/media/snapshots/route.ts:74-137 | what POST stores is what GET serves: the type derived from the stored key is the content type POST chose |
| Snapshots.ContentTypeAlwaysValid | app/api/media/snapshots/route.ts:122-132 | the chosen content type always passes the image-type check, so that 400 branch is unreachable |
| Dashboard.Redirect | app/dashboard/page.tsx:11-22 | signed-out visitors who are not loading go to /auth; a signed-in user goes to the teacher dashboard exactly when the role is "teacher", otherwise to the student one; nothing happens otherwise |
| Dashboard.Render | app/dashboard/page.tsx:24-32 | the spinner shows exactly while loading |
| Dashboard.OnlyTeacherRole | app/dashboard/page.tsx:16-20 | only the exact lower-case role "teacher" reaches the teacher dashboard; the server's "TEACHER" goes to the student dashboard |
| Dashboard.LoadingWaits | app/dashboard/page.tsx:11-30 | while loading without a user there is no redirect and the spinner shows; an authenticated visitor is never sent to /auth |
| Dashboard.LoadedRedirects | app/dashboard/page.tsx:11-22 | once loading ends, the only case without a redirect is authenticated without a user object |
| Terminate.Ended | app/api/attempts/terminate/exam/route.ts:46-53 | a terminated attempt has status TERMINATED, score 0 and end time now, and keeps its id, exam and student |
| Terminate.EndedNotActive | app/api/attempts/terminate/exam/route.ts:18-23 | a terminated attempt is never again selected as the active attempt of any exam and student |
| Terminate.OnlyFromInProgress | app/api/attempts/terminate/exam/route.ts:18-23 | only an IN_PROGRESS attempt is selected, so termination always changes the status |
| Terminate.IpAddress | app/api/attempts/terminate/exam/route.ts:87-89 | the audit IP is the non-empty x-forwarded-for header, else the non-empty x-real-ip header, else "unknown"; never empty |
| Terminate.Database.Terminate | app/api/attempts/terminate/exam/route.ts:7-110 | 401 without a user, 403 for students, 400 without both ids, 404 without an in-progress attempt, 403 when the exam is another teacher's; on success, exactly that attempt is ended, one event and one audit row are appended, and the response carries the ended attempt, its student and exam; success whenever a matching attempt of the caller's exam exists; failures change nothing |
| Terminate.Database.EndAttempt | app/api/attempts/terminate/exam/route.ts:46-92 | the attempt is ended and nothing else in the attempts table changes; exactly one monitoring event and one audit row are appended; the exam and user tables are untouched |
| Terminate.SameExamForAllCandidates | app/api/attempts/terminate/exam/route.ts:18-43 | every candidate attempt belongs to the requested exam, so the ownership check does not depend on which one findFirst returns |
| Terminate.AuditRecordsTransition | app/api/attempts/terminate/exam/route.ts:73-92 | the audit row is a TERMINATE_EXAM on that Attempt by the teacher, recording IN_PROGRESS to TERMINATED |
| Terminate.EventRecordsTermination | app/api/attempts/terminate/exam/route.ts:56-70 | the monitoring event is a HIGH EXAM_SUBMITTED event of that attempt, exam and student, naming the teacher's id |
| ExamsRoute.VisibleRows | app/api/exams/route.ts:21-44 | the listed exams are exactly as many as the filter keeps, are sorted newest first, and each is a table row the caller may see with the asked status |
| ExamsRoute.Window | app/api/exams/route.ts:18-43 | skip then take: at most take rows, the rows starting at the (clamped) skip, in order |
| ExamsRoute.TotalPages | app/api/exams/route.ts:76 | none exactly for a zero limit; otherwise the smallest page count whose pages cover the total (the ceiling of total / limit, also for a negative limit) |
| ExamsRoute.CeilPositive | app/api/exams/route.ts:76 | for a positive limit the ceiling q satisfies (q - 1) * limit < total <= q * limit |
| ExamsRoute.CeilNegative | app/api/exams/route.ts:76 | for a negative limit the ceiling q satisfies q * limit <= total < (q - 1) * limit |
| ExamsRoute.PagingReadsFallback | app/api/exams/route.ts:16-17 | page and limit are parseInt of the parameter or of the texts "1" and "20" |
| ExamsRoute.ParsesDigits | app/api/exams/route.ts:16-17 | parseInt of a decimal digit string gives its number |
| ExamsRoute.List | app/api/exams/route.ts:11-82 | 401 without a user; success exactly when page, limit and status are accepted by the database, otherwise a 500 with its error; the page holds the window of the visible exams at (page - 1) * limit, the total counts all of them and totalPages is their ceiling |
| ExamsRoute.WindowSorted | app/api/exams/route.ts:42-44 | a page of a newest-first list is newest first |
| ExamsRoute.ListedExams | app/api/exams/route.ts:24-67 | a listed page holds at most limit exams, newest first, each one the teacher or admin created or the student is enrolled in, of the asked status; total counts every exam the filter keeps |
| ExamsRoute.PagesTile | app/api/exams/route.ts:18-43 | page p starts where page p - 1 ends, so a short page is followed only by empty ones |
| ExamsRoute.LastPageReachesTotal | app/api/exams/route.ts:76 | the last page is at least 1, earlier pages are full and the total fits within it |
| ExamsRoute.FoundCountMatches | app/api/exams/route.ts:93-101 | the count check passes exactly when the ids are distinct and every one exists |
| ExamsRoute.DistinctCount | app/api/exams/route.ts:93-99 | a list has at most as many distinct ids as entries, and as many exactly when there are no duplicates |
| ExamsRoute.SubsetSize | app/api/exams/route.ts:93-99 | the rows found are never more than the distinct ids asked for |
| ExamsRoute.SubsetCount | app/api/exams/route.ts:93-99 | when as many rows are found as distinct ids are asked, every id is found |
| ExamsRoute.NewExam | app/api/exams/route.ts:104-123 | the created exam is DRAFT, by the caller, and holds the question ids in order with order k and the shuffle setting |
| ExamsRoute.CreateWith | app/api/exams/route.ts:85-147 | the rate limit answers first, then requireTeacher, then validation: a failed validation is the error handler's answer, 400 "Validation error" with the issues for a schema failure; success only after validation; the 400 "Some questions not found" object exactly when the count check fails, otherwise 201 with the new exam; every validated call succeeds |
| ExamsRoute.Create | app/api/exams/route.ts:85-147 | a created exam had a body createExamSchema accepts and is DRAFT |
| ExamsRoute.CreateChecked | app/api/exams/route.ts:85-147 | with the refined schema a created exam never has both the webcam requirement and fullscreen mode on |
| ExamsRoute.CreateAcceptsBothOn | app/api/exams/route.ts:90 | the route as written creates an exam with both settings on, which the refined schema refuses with a 400 on settings |
| ExamsRoute.DuplicateIdsRefused | app/api/exams/route.ts:93-101 | a repeated existing question id fails the count check |

## Left out

- The browser test suite under tests/selenium is not modelled. It drives a live browser with fixed sleeps, so there is nothing to state about it beyond the dashboard routing that `Dashboard.OnlyTeacherRole` covers.
- Face detection itself is not modelled: TensorFlow and face-api calls, landmark geometry, `determineOrientation` and `averagePoint`. Each detection arrives as the orientation that geometry would give it.
- Real-time transport is not modelled (socket.io rooms, the WebSocket and SSE channels, timers and intervals). A socket handler is modelled by the list of emissions it makes, and the one-second countdown interval becomes a `Tick` call.
- Database, crypto and auth libraries are parameters: Prisma queries are rows in sequences or maps, and bcrypt, JWT signing and verification, and cookie encryption are function parameters or inputs. The audit writer of app/lib/api/audit.ts is not part of this model; the terminate action's audit row is modelled as a table append.
- File system, S3, signed URLs, random bytes, the clock and base64 decoding (Node's lenient decoder, nominally section 4 of RFC 4648) are parameters of the storage helpers and the snapshot route. The S3 object metadata sent with an upload is not modelled.
- UI rendering, CSV download through a Blob, `confirm` and `alert` are not modelled. A confirmation answer is a parameter and an alert is a returned message.
- Floating-point formatting is not modelled:
  - `Number.toFixed` and `Math.round` work on exact reals;
  - GPA is held in hundredths on the student list page;
  - locale date strings and `Intl` output are parameters;
  - a NaN score is not representable, so `StudentPage.ParseAttempt` models a non-numeric score as absent.
- Case folding and `localeCompare` are ASCII only. `Text.Lower` lower-cases ASCII letters only, and `localeCompare` is modelled as code-unit lexicographic order. Orderings that depend on the locale may therefore differ.
- Equal sort keys: each sort is modelled as stable, which is what ES2019 requires. Properties about ties beyond that are not stated.
- `parseInt` is modelled without a radix argument: leading white space, an optional sign, then the digits of base 16 after `0x` or of base 10 otherwise. `Number` on text is modelled only as whether it gives NaN (`Text.NumberAccepts`), not as the value it gives; the white space both skip is the set `Text.IsSpace` lists.
- MyExams.TotalPoints: the `?? 0` default is not modelled. `StoredQuestion.points` is a plain integer, as `points: number` in app/lib/examStore.ts:11 declares it, so a question without points cannot be represented.
- Exam list: the database's refusal of a NaN page, a negative skip or an unknown status is modelled as the 500 answer carrying the database's message (`ExamsRoute.List`). The included relations (`createdBy`, `examQuestions`, `_count`) are not modelled.
- ExamsRoute.List: a negative `limit` is modelled as refused by the database (the 500 answer), like a negative skip. Prisma documents a negative `take` as counting back from the end of the list, so `?limit=-5` on page 1 (skip 0) would answer 200 with the last five rows and `totalPages = Math.ceil(total / -5)`. Prisma is not part of this model, so that answer, and the bound `|exams| <= limit` it would break, are not modelled.
- Dates on records are kept as ISO text (demo data, exam store) or milliseconds. `QuestionBank` does not model `createdAt`/`updatedAt`.
- `CreateExam` stores questions as `ExamStore.StoredQuestion` (id and points); the other question fields the page copies are dropped.
- `Monitor.FindPair`, `Presence.StudentIndex` and `Presence.ExamIndex` search from the end of the list, while JavaScript's `findIndex` and `Map` lookups search from the front. Under the unique-key invariant the classes keep, both find the same entry.
- Plagiarism: a JavaScript `Set`'s insertion order is not modelled, since only membership and size are used, and `Object.entries` order over integer-like attempt ids is modelled as insertion order. Two answers that both normalise to "" share the gram "", so they score 100 % similar (`Plagiarism.EmptyAnswersMatch`). That is the code's behaviour, kept as written.
- Cookies: the `document.cookie` jar is modelled as the string it reads back. The browser's assignment semantics (merging, expiry, the attributes it drops on read) are not modelled; the writer is modelled by the exact string it assigns.
- `StudentPage.MergeSettings`: spreading a settings object whose keys are present but explicitly `undefined` is not modelled; a key is either given or absent.
- `ExamsRoute.CreateWith`: the "Some questions not found" answer is modelled as the code writes it, a success envelope sent with status 400.
- `TeacherClasses.KeysCanCollide`: the class key joins branch, division and year with "_", so distinct classes can share a key. The model keeps that behaviour and proves the collision; `Object.values` order of the class map is modelled as insertion order.
- Numbers in request bodies: every zod `z.number()` field (points, duration, maxAttempts, passingScore, maxTabSwitchWarnings, timeSpent, score and numeric answers) is modelled as an integer. None of them carries `.int()`, so fractional values the schemas accept, such as a score of 7.5 or a passingScore of 62.5, are not represented.
- AuthForm: the form's `onRegister` is `useAuth.register` (app/hooks/useAuth.tsx:111-135), which builds the user locally with random ids and cookies and posts nothing. The model compares the form's schema with the API's on the body `api.auth.register` would post (`AuthForm.PostedBody`); the local simulation itself is not modelled.
- One clock reading per operation: the source reads `nowIso()` or `Date.now()` several times within one call (for example createdAt and updatedAt at app/lib/examStore.ts:119-120, the promoted exams' updatedAt at app/lib/examStore.ts:80, and lastDetection beside the cooldown time in app/hooks/useFaceProctoring.ts). The model passes a single `now` / `nowIso` to each operation, so readings that differ by a millisecond within one call are not represented.
- UseExam.ExamSession.UpdateAnswer: the hook's `prev.set` changes the same `Map` it already handed to `onSubmit` when the time ran out, so a later answer also shows up in that earlier submission. The model keeps a value copy in `submissions`, so that aliasing is not captured.
- Setup scripts, seed data, connection probes, type declaration files and the thin API routes outside this core are not modelled.

## Findings

| source | as written | input that shows it | evidently intended | confidence | as-written member | corrected member |
|---|---|---|---|---|---|---|
| app/components/auth/AuthForm.tsx:23 | the client registration schema accepts passwords of 6 or 7 characters, where the API's register schema (app/lib/api/validation.ts:7) asks for 8 | the form accepts name "Ann", email "a@b.co" and password "abcdef" (confirmed); posted by api.auth.register (app/lib/api/client.ts:148-149), that body is refused with the password issue, whatever the role's spelling. The form's own onRegister (app/hooks/useAuth.tsx:111-135) registers locally and posts nothing, so the gap shows only once a client posts the form's values | the client minimum matches the server's 8 characters | not executed | AuthForm.RegisterSchemaAsWritten, with AuthForm.ClientServerGap | AuthForm.RegisterSchema, with AuthForm.ClientImpliesServer and AuthForm.Form.SubmitRegisterCorrected |
| app/components/auth/AuthForm.tsx:25 | the client's role enum is "student" / "teacher", while the API's register schema (app/lib/api/validation.ts:8) accepts only "STUDENT" / "TEACHER", and api.auth.register posts the role unchanged | every registration the form accepts, for example the one above with role "student", is refused with an issue on the role when posted as typed; as above, the form's own onRegister posts nothing | the role is sent in the server's upper-case spelling | not executed | AuthForm.RoleCaseGap | AuthForm.IntendedBody, with AuthForm.ServerRole and AuthForm.ClientImpliesServer |
| app/api/exams/route.ts:90 | exam creation validates with createExamSchema, so the webcam/fullscreen exclusion of app/lib/api/validation.ts:63-69 is not applied | a teacher's body with title "Quiz", duration 30, one existing question "q1", and requireWebcam and enableFullscreenMode both true is created | creation uses createExamSchemaWithChecks, refusing that body with a 400 on settings | not executed | ExamsRoute.Create, with ExamsRoute.CreateAcceptsBothOn | ExamsRoute.CreateChecked |
