# Fluid-balance dialysis client: a Dafny model of its decision logic

The application is an Angular client for a peritoneal-dialysis clinic. Signed-in staff
keep a catalogue of medicines, vital signs and bag types, a table of patients, and for
each patient the fluid balances, extra fluids, prescribed medicines and vital-sign
readings recorded at given dates, plus a calculated summary that can be downloaded as a
PDF. The backend is reached through thin HTTP services; the client's own logic is the
session lifecycle around a JSON Web Token and the bookkeeping of its tables and forms.

This project models that logic and proves what it promises:

- **Session lifecycle** (`session_timer.dfy`, `auth_service.dfy`, `utility.dfy`,
  `auth_guard.dfy`, `no_auth_guard.dfy`, `jwt_interceptor.dfy`, `base_component.dfy`,
  `update_password.dfy`). The session timer is a class whose two `setTimeout` handles
  are pending deadlines, and the clock is an explicit `now`. The token predicates are
  functions of the stored token, an abstract decoder and the clock. The notification
  flag, login, logout and startup are methods with frames. The guards, the interceptor
  and the password form are built on top of these.
- **Row-form registry and list maintenance** (`row_forms.dfy`). This is the dictionary
  of per-row forms that every table keeps beside its records. `Sync` is its
  insert-missing / overwrite-existing / delete-stale loop, proved against the function
  `Synced`. The module also holds the prepend, remove-by-id and replace-first-match list
  operations.
- **Table components** (`dashboard.dfy`, `medicine_form.dfy`, `vital_sign_form.dfy`,
  `extra_fluid_panel.dfy`, `medicine_detail_panel.dfy`, `vital_sign_detail_panel.dfy`,
  `panels.dfy`, `catalog.dfy`). Each component is a class, and its fields are the ones
  the component updates. Each service call is returned as a request, and the reply
  arrives through an `On...` method. Form validity and the user's input are parameters.
- **The active-slot resolver** (`patient_detail.dfy`). It turns the backend's allowed
  times of day into sorted date-time slots of a day, and accepts a balance's date only
  at one of those slots.
- **The calculated balance page** (`calculated_fluid_balance.dfy`). This covers the
  normalisation and 15-entry cap of the summaries, the date parameters, and the PDF file
  name.
- **JavaScript semantics** that these decisions rest on (`js.dfy`, `dates.dfy`,
  `wrappers.dfy`):
  - truthiness, `??`, `Number(...)` on digit strings, `trim`, `split`, `includes`,
    `padStart` and `replace(/\s+/g, '_')`;
  - `Date` as an invalid date or a well-formed civil date-time in one time zone, with
    `getTime` and `toISOString`.

Where the behaviour the application documents and its code differ, the model follows the
code:

- **Invalid date object in `buildDateKey`.** An invalid `Date` object gets the key
  `"NaN-NaN-NaN"`, not `'invalid'`. Only a missing date or an unparsable string gets
  `'invalid'` (`VitalSignDetailPanel.BuildDateKeyOfInvalidObject`).
- **Token without `exp` in `isTokenExpired`.** A decodable token without `exp` is not
  expired, because the NaN comparison is false. `isTokenValid` rejects it.
- **`handleLogin` with a falsy expiry.** It stores the token and leaves a running timer
  armed.
- **Years 0 to 99 in built dates.** `composeSlot` and `toUtcIsoString` pass the date's
  year to the `Date` constructor and `Date.UTC`, which read a year 0..99 as 1900 plus that
  year. A balance dated in those years therefore finds no edit slot
  (`PatientDetail.EarlyDateFindsNoSlot`), and a medicine record in year 50 is sent in 1950
  (`MedicineDetailPanel.ToUtcIsoStringOfYear50`).
- **Base64url mapping.** `AuthService` decodes the token's payload without the base64url
  mapping that `Utility.decodeToken` applies.

## Model

| member | source | states |
|---|---|---|
| SessionTimer.ToInt32 | src/app/core/service/session-timer.service.ts:29-35 | a timer delay converted to a signed 32-bit integer: the value modulo 2^32 in the signed range, unchanged when it already lies there |
| SessionTimer.EffectiveDelay | src/app/core/service/session-timer.service.ts:29-35 | the delay a browser timer really waits: the requested delay up to 2147483647 ms, 0 just above that limit, the delay less 2^32 after one wrap |
| SessionTimer.Schedule | src/app/core/service/session-timer.service.ts:13-36 | nothing is armed unless the expiry lies after `now`; the logout is armed after the effective delay of the remaining time and the warning after the effective delay of the remaining time less the lead, and only when that is positive; a warning is always armed with a logout; within the 32-bit limit the logout fires at the expiry and a warning strictly before it |
| SessionTimer.ThirtyDaySessionEndsAtOnce | src/app/core/service/session-timer.service.ts:29-35 | a token expiring in 30 days arms both timers to fire immediately |
| SessionTimer.JustPastTheLimitReversesOrder | src/app/core/service/session-timer.service.ts:20-35 | an expiry just past the 32-bit limit fires the logout at once and the warning later, so the two come out of order |
| SessionTimer.SessionTimerService.constructor | src/app/core/service/session-timer.service.ts:8-11 | a new timer has nothing pending |
| SessionTimer.SessionTimerService.Stop | src/app/core/service/session-timer.service.ts:38-47 | afterwards nothing is pending, whatever was pending before |
| SessionTimer.SessionTimerService.Start | src/app/core/service/session-timer.service.ts:13-36 | the pending deadlines are exactly those `Schedule` gives for the arguments, so earlier ones are replaced; a pending warning always comes with a pending logout |
| SessionTimer.SessionTimerService.FireDue | src/app/core/service/session-timer.service.ts:23-35 | a timer fires exactly when its deadline is due, fires once (it is no longer pending) and leaves the other untouched; when the warning was due before the logout, the logout never fires while the warning is still pending |
| SessionTimer.StartedInThePast | src/app/core/service/session-timer.service.ts:16-18 | after `start` with an expiry that is not in the future, `onExpire` never runs however much time passes, and nothing is pending |
| Auth.GetTokenExpiration | src/app/core/service/AuthService.ts:37-40 | fails (throws) exactly when the payload cannot be decoded |
| Auth.IsTokenExpiredSpec | src/app/core/service/AuthService.ts:27-35 | an undecodable token is expired; with a numeric expiry the token is expired exactly when `now` is strictly after it; without a numeric expiry it is not expired |
| Auth.MissingExpiry | src/app/core/service/AuthService.ts:27-58 | a decodable payload without `exp` is neither expired nor valid |
| Auth.IsTokenValidSpec | src/app/core/service/AuthService.ts:42-58 | an absent or empty token, an undecodable payload and a falsy `exp` are invalid; valid exactly when the token is present, non-empty, decodable, its `exp` truthy and its expiry strictly after `now` |
| Auth.ValidAndExpiredExclusive | src/app/core/service/AuthService.ts:27-58 | a token is never valid and expired at once; at the exact expiry instant it is neither |
| Auth.ValidIffNotExpired | src/app/core/service/AuthService.ts:27-58 | for a numeric truthy expiry away from `now`, valid is the same as not expired |
| Auth.ExpiryMonotone | src/app/core/service/AuthService.ts:27-58 | an expired decodable token stays expired later; a token valid later was valid earlier |
| Auth.UrlSafePayloadCountsAsExpired | src/app/core/service/AuthService.ts:27-35 | with a decoder that rejects the base64url letters, a payload containing '-' or '_' makes the token expired and invalid, while `Utility.decodeToken` decodes the same payload after the alphabet change |
| Auth.AuthService.constructor | src/app/core/service/AuthService.ts:10-12 | the token is the stored one and the notification flag is clear |
| Auth.AuthService.GetToken | src/app/core/service/AuthService.ts:18-20 | returns the stored token |
| Auth.AuthService.CanNotifySessionExpired | src/app/core/service/AuthService.ts:67-71 | true exactly on the first call after the flag was cleared, and the flag is set afterwards |
| Auth.AuthService.HandleLogout | src/app/core/service/AuthService.ts:84-88 | the token is removed, the notification flag cleared and the timer idle |
| Auth.AuthService.Logout | src/app/core/service/AuthService.ts:22-25 | the same end state as `handleLogout` |
| Auth.AuthService.StartIfTruthy | src/app/core/service/AuthService.ts:75-81 | a truthy expiry arms the timer as `Schedule` says; a falsy one leaves the timer as it was |
| Auth.AuthService.HandleLogin | src/app/core/service/AuthService.ts:73-82 | the token is stored first; it throws exactly when the token cannot be decoded; a truthy expiry arms the timer at that expiry, otherwise the timer is left running as it was |
| Auth.AuthService.InitSessionFromStorage | src/app/core/service/AuthService.ts:90-101 | a stored non-empty token with a truthy expiry arms the timer at that expiry; otherwise the timer is unchanged; it throws exactly when the stored token cannot be decoded |
| Auth.AuthService.GetTimeLeft | src/app/core/service/AuthService.ts:61-65 | 0 without a token; otherwise the expiry minus `now` (NaN without a numeric expiry), failing exactly when the payload cannot be decoded |
| Auth.AuthService.Tick | src/app/core/service/AuthService.ts:77-80 | when the logout deadline is due the session ends (token removed, flag cleared, timer idle); otherwise the token, the flag and the logout deadline are unchanged; `warned` holds exactly when the warning deadline was due, and that deadline is then cleared so the warning shows once |
| AuthGuard.CanActivate | src/app/core/guards/auth.guard.ts:5-17 | allows exactly with a stored, non-empty, unexpired token and then changes nothing; otherwise it logs out |
| NoAuthGuard.CanActivate | src/app/core/guards/no-auth.guard.ts:6-18 | denies exactly when a stored, non-empty, unexpired token is present; it changes no state |
| NoAuthGuard.GuardsComplementary | src/app/core/guards/no-auth.guard.ts:12-17 | for the same token and clock, exactly one of the two guards allows |
| NoAuthGuard.AllowsWithoutLiveToken | src/app/core/guards/no-auth.guard.ts:12-17 | an absent, empty, undecodable or expired token is let through |
| NoAuthGuard.TokenWithoutExpiryCountsAsLive | src/app/core/guards/no-auth.guard.ts:12 | a decodable token without `exp` keeps the user out of the login pages although `isTokenValid` rejects it |
| JwtInterceptor.PrepareRequest | src/app/core/interceptors/jwt.interceptor.ts:15-29 | the URL is kept; public URLs and requests without a token pass unchanged; otherwise the headers gain `Authorization: Bearer <token>` and nothing else |
| JwtInterceptor.BearerHeaderIff | src/app/core/interceptors/jwt.interceptor.ts:15-29 | the bearer header is present exactly for a non-public URL with a non-empty token |
| JwtInterceptor.PublicUrlExamples | src/app/core/interceptors/jwt.interceptor.ts:15 | the core user service's registration URL is not public (it does not contain `/user/save`), the dashboard user service's registration and the login URLs are |
| JwtInterceptor.Intercept | src/app/core/interceptors/jwt.interceptor.ts:8-48 | forwards `PrepareRequest`'s request; rethrows every HTTP error; ends the session and notifies exactly on a 401 from a non-public URL; otherwise the session is unchanged |
| Utility.SecondSegmentSpec | src/app/core/service/util/utility.ts:10-11 | no payload segment exactly when the token has no '.'; otherwise the segment is the text between the first and the second '.' (or the end) |
| Utility.ReplaceChar | src/app/core/service/util/utility.ts:12 | same length; each occurrence of the character is replaced and every other character kept |
| Utility.Base64UrlToBase64Spec | src/app/core/service/util/utility.ts:12 | each '-' becomes '+' and each '_' becomes '/', the length is kept, none of them remains, and the mapping is idempotent |
| Utility.DecodeTokenSpec | src/app/core/service/util/utility.ts:10-15 | a token without '.' cannot be decoded; otherwise exactly the mapped second segment is decoded |
| Utility.GetToday | src/app/core/service/util/utility.ts:17-21 | midnight of the same calendar day, no later than `now` and less than a day before it |
| Base.BaseComponent.constructor | src/app/features/dashboard/base/base.component.ts:18-33 | an invalid stored token is logged out; a valid one is kept and the timer is armed at its expiry |
| Base.BaseComponent.Logout | src/app/features/dashboard/base/base.component.ts:40-42 | the session ends |
| UpdatePassword.ResolveUserId | src/app/features/auth/update-password/update-password.component.ts:122-135 | no id without a token or when decoding throws; otherwise the id is the finite number read from `userId ?? id ?? sub` |
| UpdatePassword.ResolveUserIdOrder | src/app/features/auth/update-password/update-password.component.ts:130-131 | the first present claim among `userId`, `id`, `sub` decides, even when it is not a number |
| UpdatePassword.Validate | src/app/features/auth/update-password/update-password.component.ts:56-72 | the checks pass exactly for a valid form whose two passwords are both non-blank and differ |
| UpdatePassword.ValidateCases | src/app/features/auth/update-password/update-password.component.ts:63-72 | a whitespace-only or missing password is reported as missing; passwords differing only in surrounding whitespace pass; equal non-blank passwords are rejected as unchanged |
| UpdatePassword.UpdatePasswordComponent.constructor | src/app/features/auth/update-password/update-password.component.ts:40-54 | empty form, not submitting, user id resolved from the stored token |
| UpdatePassword.UpdatePasswordComponent.EnsureUserId | src/app/features/auth/update-password/update-password.component.ts:114-120 | a cached id is returned as it is; otherwise the id is resolved again and cached |
| UpdatePassword.UpdatePasswordComponent.Submit | src/app/features/auth/update-password/update-password.component.ts:56-93 | a failed check is reported and only touches the form state it names; a passed check with no usable id (none or 0) ends the session; otherwise the update is requested with both passwords and the id, and `submitting` is set |
| UpdatePassword.UpdatePasswordComponent.OnUpdateSuccess | src/app/features/auth/update-password/update-password.component.ts:95-102 | the form is reset to nulls, submitting cleared and the session ended |
| UpdatePassword.UpdatePasswordComponent.OnUpdateError | src/app/features/auth/update-password/update-password.component.ts:95-106 | the server's non-empty message or the generic one; submitting cleared |
| Dashboard.BagTypeIdOf | src/app/features/dashboard/dashboard/dashboard.component.ts:207-210 | null without a bag type; otherwise a value that converts back to the bag type's id |
| Dashboard.DeriveUserId | src/app/features/dashboard/dashboard/dashboard.component.ts:75-76 | an id exactly when `Number(jti ?? id ?? sub)` is finite |
| Dashboard.DeriveUserIdSpec | src/app/features/dashboard/dashboard/dashboard.component.ts:75-76 | the first present claim among `jti`, `id`, `sub` decides even when it is not numeric; all three absent give no id; a null `sub` after absent claims gives 0 |
| Dashboard.FirstBagTypeWithId | src/app/features/dashboard/dashboard/dashboard.component.ts:141 | the index of the first catalogue entry whose id is strictly equal to the given number, or none when no entry has it |
| Dashboard.ResolveBagType | src/app/features/dashboard/dashboard/dashboard.component.ts:140-143 | the response's bag type wins; otherwise the first catalogue entry with the normalized id; without such an entry the patient's own bag type; without that the "Sin asignar" placeholder with the normalized id |
| Dashboard.DashboardComponent.constructor | src/app/features/dashboard/dashboard/dashboard.component.ts:59-86 | empty table, catalogue and row forms, nothing edited, saved or created, an empty untouched new-patient form, and the user id derived from the token's claims (none without a token) |
| Dashboard.DashboardComponent.OnPatientsLoaded | src/app/features/dashboard/dashboard/dashboard.component.ts:77-82 | the loaded list replaces the table and the row forms are synced to it |
| Dashboard.DashboardComponent.RefreshTable | src/app/features/dashboard/dashboard/dashboard.component.ts:183-192 | the row forms become the sync of the patients; nothing else changes |
| Dashboard.DashboardComponent.StartEdit | src/app/features/dashboard/dashboard/dashboard.component.ts:96-99 | the patient's row form is ensured with its values and the patient is being edited |
| Dashboard.DashboardComponent.CancelEdit | src/app/features/dashboard/dashboard/dashboard.component.ts:101-111 | an existing row form is patched back to the patient's values (a missing one is not created) and no patient is being edited |
| Dashboard.DashboardComponent.IsEditing | src/app/features/dashboard/dashboard/dashboard.component.ts:179-181 | true exactly for the id being edited |
| Dashboard.DashboardComponent.SavePatient | src/app/features/dashboard/dashboard/dashboard.component.ts:113-135 | a request exactly when the row form exists, is valid and has a bag type; it carries the form's name and age, the numeric bag-type id and the patient's user id and status, and marks the patient as saving; an invalid or bag-less form is marked touched and nothing is sent |
| Dashboard.DashboardComponent.OnSaveSuccess | src/app/features/dashboard/dashboard/dashboard.component.ts:139-146 | the response, or the patient with the sent values and the resolved bag type, replaces the first patient with that id; the row forms are then re-synced with the new list, or left as they were when no patient matched; editing and saving are cleared; the catalogue, the create form, the user id and the creating flag are not touched |
| Dashboard.DashboardComponent.OnSaveError | src/app/features/dashboard/dashboard/dashboard.component.ts:137-152 | the row form is patched back to the patient's values and saving is cleared |
| Dashboard.DashboardComponent.ApplyPatientUpdate | src/app/features/dashboard/dashboard/dashboard.component.ts:221-227 | the first patient with that id is replaced and the row forms synced; without a match neither the table nor the forms change |
| Dashboard.DashboardComponent.RemovePatientFromTable | src/app/features/dashboard/dashboard/dashboard.component.ts:157-173 | every patient with that id is dropped, its form deleted, the editing and saving ids equal to it cleared, and the remaining forms synced |
| Dashboard.DashboardComponent.SubmitNewPatient | src/app/features/dashboard/dashboard/dashboard.component.ts:242-264 | a request exactly with a non-zero user id and a valid form; it carries the form's values, the numeric bag-type id, the user id and a null status, and sets `creatingPatient`; an invalid form (with a user id) is marked touched, and on every other path the form is unchanged; without a request `creatingPatient` is unchanged; the table is unchanged |
| Dashboard.DashboardComponent.OnCreateError | src/app/features/dashboard/dashboard/dashboard.component.ts:266-279 | the failure is only logged; `finalize` ends the creation |
| Dashboard.DashboardComponent.OnCreateSuccess | src/app/features/dashboard/dashboard/dashboard.component.ts:266-275 | the new patient goes first, the forms are synced and the new-patient form is reset with the first bag type (or null) |
| Dashboard.DashboardComponent.OnBagTypesLoaded | src/app/features/dashboard/dashboard/dashboard.component.ts:229-237 | the catalogue is replaced; an empty bag-type control gets the first id when there is one, with name, age and the touched state kept; otherwise the form is unchanged |
| Dashboard.DashboardComponent.OnBagTypesError | src/app/features/dashboard/dashboard/dashboard.component.ts:238 | the catalogue becomes empty and nothing else changes |
| Dashboard.DashboardComponent.EnsureDefaultBagTypeSelection | src/app/features/dashboard/dashboard/dashboard.component.ts:283-292 | only a null, undefined or empty control is filled, and only from a non-empty catalogue, with its first id; otherwise the form is unchanged |
| Dashboard.DefaultBagTypeId | src/app/features/dashboard/dashboard/dashboard.component.ts:274 | null for an empty catalogue, otherwise a value converting to the first bag type's id |
| Dashboard.UpdatedPatients | src/app/features/dashboard/dashboard/dashboard.component.ts:221-227 | same length; the first patient with the id is replaced and every other position kept; without a match the list is unchanged |
| Dashboard.RowFormsFollowPatients | src/app/features/dashboard/dashboard/dashboard.component.ts:194-219 | with distinct ids, after a sync the forms' keys are exactly the patients' ids and each form holds its patient's values |
| RowForms.KeysOfSpec | src/app/features/dashboard/dashboard/dashboard.component.ts:196-199 | a key is registered exactly when some record carries it |
| RowForms.Upsert | src/app/features/dashboard/dashboard/dashboard.component.ts:204-219 | the key is added; an existing form takes the new value and keeps its touched state, a new one is untouched; other forms are unchanged |
| RowForms.EnsurePresent | src/app/features/dashboard/patient-detail/vital-sign-detail-panel/vital-sign-detail-panel.component.ts:329-343 | an existing form is left as it is, a missing one is created untouched; other forms are unchanged |
| RowForms.Patch | src/app/features/dashboard/dashboard/dashboard.component.ts:102-109 | only an existing form changes: it takes the value and keeps its touched state; no key is added |
| RowForms.SyncedSpec | src/app/features/dashboard/dashboard/dashboard.component.ts:194-202 | after a sync the keys are exactly the records' ids, forms of vanished records are gone, and syncing again changes nothing |
| RowForms.Sync | src/app/features/dashboard/dashboard/dashboard.component.ts:194-202 | the loop over the records followed by the deletion of the leftover keys yields exactly the synced registry |
| RowForms.DeleteKeys | src/app/features/dashboard/dashboard/dashboard.component.ts:201 | the registry minus exactly the given keys |
| RowForms.RemoveWhere | src/app/features/dashboard/dashboard/dashboard.component.ts:164 | no record with the id remains and every other record keeps its multiplicity |
| RowForms.RemoveWhereAppend | src/app/features/dashboard/dashboard/dashboard.component.ts:164 | filtering a concatenation is the concatenation of the filtered parts, so the kept records stay in their original order |
| RowForms.RemoveWhereNoMatch | src/app/features/dashboard/dashboard/dashboard.component.ts:164 | a list without a record carrying the id is returned unchanged |
| RowForms.FindFirst | src/app/features/dashboard/dashboard/dashboard.component.ts:222 | the first index whose record satisfies the predicate, or none when no record does |
| RowForms.ClearIfEqual | src/app/features/dashboard/dashboard/dashboard.component.ts:166-171 | the editing or saving id is cleared exactly when it equals the id, otherwise kept |
| Catalog.RowKeyInjective | src/app/features/dashboard/vital-sign-form/vital-sign-form.component.ts:240 | two catalogue ids have the same `toString()` row key exactly when they are equal |
| Panels.RecordId | src/app/features/dashboard/patient-detail/extra-fluid-panel/extra-fluid-panel.component.ts:314-317 | no id exactly when the candidate is null or undefined; otherwise `Number(candidate)` |
| Panels.RowKeyInjective | src/app/features/dashboard/patient-detail/extra-fluid-panel/extra-fluid-panel.component.ts:319-321 | two numeric ids (NaN included) have the same row key exactly when they are the same number |
| Panels.ClearIfSame | src/app/features/dashboard/patient-detail/extra-fluid-panel/extra-fluid-panel.component.ts:194-196 | the editing id is cleared exactly when it is `===` the id (never for NaN), otherwise kept |
| Panels.TextOf | src/app/features/dashboard/patient-detail/vital-sign-detail-panel/vital-sign-detail-panel.component.ts:340 | null and undefined give the empty text; a string is kept |
| Panels.DateOf | src/app/features/dashboard/patient-detail/extra-fluid-panel/extra-fluid-panel.component.ts:145 | null exactly for a falsy value; a `Date` object is copied |
| Panels.NormalizedDate | src/app/features/dashboard/patient-detail/extra-fluid-panel/extra-fluid-panel.component.ts:258-263 | the result is a `Date` object or null and yields the same form date as the original |
| Panels.NormalizedDateIdempotent | src/app/features/dashboard/patient-detail/extra-fluid-panel/extra-fluid-panel.component.ts:258-263 | normalising a normalised date changes nothing |
| Panels.AreDatesEqualSpec | src/app/features/dashboard/patient-detail/extra-fluid-panel/extra-fluid-panel.component.ts:323-336 | two absent values are equal; an absent and a present one are not; an invalid date equals nothing; two valid dates are equal exactly when their time values are |
| Panels.AreDatesEqualSymmetricNotReflexive | src/app/features/dashboard/patient-detail/extra-fluid-panel/extra-fluid-panel.component.ts:323-336 | the comparison is symmetric; an invalid date is not equal to itself; a valid date is |
| Panels.Applied | src/app/features/dashboard/patient-detail/extra-fluid-panel/extra-fluid-panel.component.ts:85 | an input that changed holds its current value, others keep theirs |
| Panels.ShouldReloadSpec | src/app/features/dashboard/patient-detail/extra-fluid-panel/extra-fluid-panel.component.ts:85-93 | the first patient-id change alone does not reload; a later one does; a bound moved between valid dates reloads exactly when its instant changed; without any of the three conditions nothing is reloaded |
| Panels.LoadRequest | src/app/features/dashboard/patient-detail/extra-fluid-panel/extra-fluid-panel.component.ts:104-114 | no request for a falsy patient id; the range request exactly when both bounds are present and valid, carrying those two dates; otherwise the plain request, always for the panel's patient |
| Panels.LoadRequestIgnoresPartialFilter | src/app/features/dashboard/patient-detail/extra-fluid-panel/extra-fluid-panel.component.ts:109-114 | a missing or invalid end bound makes the panel ask for the current records even with a valid start |
| ExtraFluidPanel.ExtractRecordId | src/app/features/dashboard/patient-detail/extra-fluid-panel/extra-fluid-panel.component.ts:314-317 | none exactly when `id`, `extraFluidId` and `fluidId` are all nullish; otherwise the first present one through `Number` |
| ExtraFluidPanel.NormalizeRecords | src/app/features/dashboard/patient-detail/extra-fluid-panel/extra-fluid-panel.component.ts:258-263 | same length; each record keeps every field but its date, which becomes a `Date` or null, and its form values are unchanged |
| ExtraFluidPanel.MapFormToPayload | src/app/features/dashboard/patient-detail/extra-fluid-panel/extra-fluid-panel.component.ts:265-273 | volumes through `Number`, the date kept (null stays null), and the form's patient id or else the panel's |
| ExtraFluidPanel.RowFormsFollowRecords | src/app/features/dashboard/patient-detail/extra-fluid-panel/extra-fluid-panel.component.ts:291-312 | after a sync the row keys are exactly those of the records with an id, and a record whose key no other record shares has a form holding its values |
| ExtraFluidPanel.ExtraFluidPanelComponent.constructor | src/app/features/dashboard/patient-detail/extra-fluid-panel/extra-fluid-panel.component.ts:67-77 | the create form starts at the current instant with empty volumes; nothing is loaded, edited or saved |
| ExtraFluidPanel.ExtraFluidPanelComponent.NgOnInit | src/app/features/dashboard/patient-detail/extra-fluid-panel/extra-fluid-panel.component.ts:79-83 | loads exactly when there is a patient |
| ExtraFluidPanel.ExtraFluidPanelComponent.NgOnChanges | src/app/features/dashboard/patient-detail/extra-fluid-panel/extra-fluid-panel.component.ts:85-93 | the inputs take their new values and a request is made exactly when the reload rule holds and there is a patient |
| ExtraFluidPanel.ExtraFluidPanelComponent.LoadRecords | src/app/features/dashboard/patient-detail/extra-fluid-panel/extra-fluid-panel.component.ts:104-114 | the request `LoadRequest` chooses; `loading` is set when one is made; no other state changes |
| ExtraFluidPanel.ExtraFluidPanelComponent.OnRecordsLoaded | src/app/features/dashboard/patient-detail/extra-fluid-panel/extra-fluid-panel.component.ts:119-122 | the table holds the normalised records and the row forms are their sync |
| ExtraFluidPanel.ExtraFluidPanelComponent.OnRecordsError | src/app/features/dashboard/patient-detail/extra-fluid-panel/extra-fluid-panel.component.ts:117-123 | loading ends; records and forms are kept |
| ExtraFluidPanel.ExtraFluidPanelComponent.StartEdit | src/app/features/dashboard/patient-detail/extra-fluid-panel/extra-fluid-panel.component.ts:127-135 | a record without id changes nothing; otherwise its form is created if missing (an existing one is kept) and it becomes the edited record |
| ExtraFluidPanel.ExtraFluidPanelComponent.CancelEdit | src/app/features/dashboard/patient-detail/extra-fluid-panel/extra-fluid-panel.component.ts:137-151 | a record without id changes nothing; otherwise an existing form gets the record's values back and editing ends |
| ExtraFluidPanel.ExtraFluidPanelComponent.SaveRecord | src/app/features/dashboard/patient-detail/extra-fluid-panel/extra-fluid-panel.component.ts:153-171 | a request exactly for a record with id and an existing valid form, carrying that id and the mapped form with the panel's patient; an invalid form is marked touched; `savingId` is set only when a request is made |
| ExtraFluidPanel.ExtraFluidPanelComponent.OnSaveSuccess | src/app/features/dashboard/patient-detail/extra-fluid-panel/extra-fluid-panel.component.ts:173-179 | editing and saving end and the records are reloaded |
| ExtraFluidPanel.ExtraFluidPanelComponent.OnSaveError | src/app/features/dashboard/patient-detail/extra-fluid-panel/extra-fluid-panel.component.ts:173-180 | saving ends, nothing else changes |
| ExtraFluidPanel.ExtraFluidPanelComponent.DeleteRecord | src/app/features/dashboard/patient-detail/extra-fluid-panel/extra-fluid-panel.component.ts:184-191 | the id to delete, none for a record without id |
| ExtraFluidPanel.ExtraFluidPanelComponent.OnDeleteSuccess | src/app/features/dashboard/patient-detail/extra-fluid-panel/extra-fluid-panel.component.ts:193-198 | editing ends only if it was the deleted record's; the records are reloaded |
| ExtraFluidPanel.ExtraFluidPanelComponent.SubmitCreate | src/app/features/dashboard/patient-detail/extra-fluid-panel/extra-fluid-panel.component.ts:204-217 | a payload exactly for a truthy patient id and a valid form, for the panel's patient; `creating` is set; an invalid form is marked touched |
| ExtraFluidPanel.ExtraFluidPanelComponent.OnCreateSuccess | src/app/features/dashboard/patient-detail/extra-fluid-panel/extra-fluid-panel.component.ts:220-227 | the form is reset to the current instant with empty volumes, creation ends and the records are reloaded |
| ExtraFluidPanel.ExtraFluidPanelComponent.OnCreateError | src/app/features/dashboard/patient-detail/extra-fluid-panel/extra-fluid-panel.component.ts:218-229 | creation ends and the form is kept |
| ExtraFluidPanel.ExtraFluidPanelComponent.IsEditing | src/app/features/dashboard/patient-detail/extra-fluid-panel/extra-fluid-panel.component.ts:233-236 | true exactly when the record has an id `===` the edited one; a NaN id is never edited |
| ExtraFluidPanel.ExtraFluidPanelComponent.GetRowForm | src/app/features/dashboard/patient-detail/extra-fluid-panel/extra-fluid-panel.component.ts:253-256 | the record's form exactly when it has an id and a form under that key |
| MedicineDetailPanel.ExtractRecordId | src/app/features/dashboard/patient-detail/medicine-detail-panel/medicine-detail-panel.component.ts:344-347 | none exactly when `id` and `medicineDetailId` are both nullish; otherwise the first present one through `Number` |
| MedicineDetailPanel.ExtractMedicineId | src/app/features/dashboard/patient-detail/medicine-detail-panel/medicine-detail-panel.component.ts:349-351 | the embedded medicine's id, none when there is no medicine or it has no id |
| MedicineDetailPanel.NormalizeRecords | src/app/features/dashboard/patient-detail/medicine-detail-panel/medicine-detail-panel.component.ts:285-290 | same length; only the dates change, to a `Date` or null, and the form values are unchanged |
| MedicineDetailPanel.FindMedicineById | src/app/features/dashboard/patient-detail/medicine-detail-panel/medicine-detail-panel.component.ts:379-381 | a catalogue entry with that id, the first one; none exactly when no entry has it |
| MedicineDetailPanel.BuildMedicinePayload | src/app/features/dashboard/patient-detail/medicine-detail-panel/medicine-detail-panel.component.ts:370-377 | a non-finite id gives the blank medicine without id; a finite one gives the first catalogue entry with that id, or a blank medicine carrying it |
| MedicineDetailPanel.BuildMedicinePayloadOfNull | src/app/features/dashboard/patient-detail/medicine-detail-panel/medicine-detail-panel.component.ts:371 | an empty (null) control selects the medicine with id 0 |
| MedicineDetailPanel.ToUtcIsoStringSpec | src/app/features/dashboard/patient-detail/medicine-detail-panel/medicine-detail-panel.component.ts:357-368 | the string is the day `Date.UTC` lands on, with the date's hour and minute and `:00.000Z`; outside years 0..99 that is the date's own day; two dates in the same minute give the same string |
| MedicineDetailPanel.ToUtcIsoStringOfYear50 | src/app/features/dashboard/patient-detail/medicine-detail-panel/medicine-detail-panel.component.ts:357-368 | a date of 0050-03-01 10:20 is sent as "1950-03-01T10:20:00.000Z" |
| MedicineDetailPanel.MapFormToPayload | src/app/features/dashboard/patient-detail/medicine-detail-panel/medicine-detail-panel.component.ts:292-301 | the patient the form names or the panel's; the medicine through `buildMedicinePayload`; dose and frequency as trimmed text; the date as `toUtcIsoString` gives it (so a year 0..99 is sent as 1900 plus that year) or null; no payload for an invalid date, where `toISOString` throws |
| MedicineDetailPanel.PayloadTextTrimmed | src/app/features/dashboard/patient-detail/medicine-detail-panel/medicine-detail-panel.component.ts:297-298 | dose and frequency in a payload have no surrounding whitespace |
| MedicineDetailPanel.GetMedicineLabel | src/app/features/dashboard/patient-detail/medicine-detail-panel/medicine-detail-panel.component.ts:274-283 | the embedded medicine's non-empty name; else for a non-zero id the catalogue name or `Medicamento #<id>`; else `Sin medicamento` |
| MedicineDetailPanel.RowFormsFollowRecords | src/app/features/dashboard/patient-detail/medicine-detail-panel/medicine-detail-panel.component.ts:320-342 | after a sync the row keys are exactly those of the records with an id |
| MedicineDetailPanel.MedicineDetailPanelComponent.constructor | src/app/features/dashboard/patient-detail/medicine-detail-panel/medicine-detail-panel.component.ts:72-84 | the create form is the current instant, no medicine and empty texts; nothing is loaded |
| MedicineDetailPanel.MedicineDetailPanelComponent.NgOnInit | src/app/features/dashboard/patient-detail/medicine-detail-panel/medicine-detail-panel.component.ts:86-91 | the catalogue is always requested; the records exactly when there is a patient |
| MedicineDetailPanel.MedicineDetailPanelComponent.NgOnChanges | src/app/features/dashboard/patient-detail/medicine-detail-panel/medicine-detail-panel.component.ts:93-97 | only a patient change after the first one reloads, and only for a truthy patient id |
| MedicineDetailPanel.MedicineDetailPanelComponent.LoadRecords | src/app/features/dashboard/patient-detail/medicine-detail-panel/medicine-detail-panel.component.ts:108-113 | a request for the panel's patient exactly when its id is truthy; `loading` set then; nothing else changes |
| MedicineDetailPanel.MedicineDetailPanelComponent.LoadMedicines | src/app/features/dashboard/patient-detail/medicine-detail-panel/medicine-detail-panel.component.ts:124-126 | the catalogue request is marked as loading and nothing else changes |
| MedicineDetailPanel.MedicineDetailPanelComponent.OnMedicinesLoaded | src/app/features/dashboard/patient-detail/medicine-detail-panel/medicine-detail-panel.component.ts:129 | the catalogue is the answer, or empty for a null answer; loading ends |
| MedicineDetailPanel.MedicineDetailPanelComponent.OnMedicinesError | src/app/features/dashboard/patient-detail/medicine-detail-panel/medicine-detail-panel.component.ts:130-133 | the catalogue is empty and loading ends |
| MedicineDetailPanel.MedicineDetailPanelComponent.OnRecordsLoaded | src/app/features/dashboard/patient-detail/medicine-detail-panel/medicine-detail-panel.component.ts:116-119 | the table holds the normalised records and the row forms are their sync |
| MedicineDetailPanel.MedicineDetailPanelComponent.OnRecordsError | src/app/features/dashboard/patient-detail/medicine-detail-panel/medicine-detail-panel.component.ts:114-120 | loading ends; records and forms are kept |
| MedicineDetailPanel.MedicineDetailPanelComponent.StartEdit | src/app/features/dashboard/patient-detail/medicine-detail-panel/medicine-detail-panel.component.ts:137-145 | a record without id changes nothing; otherwise its form is created if missing and it becomes the edited record |
| MedicineDetailPanel.MedicineDetailPanelComponent.CancelEdit | src/app/features/dashboard/patient-detail/medicine-detail-panel/medicine-detail-panel.component.ts:147-162 | a record without id changes nothing; otherwise an existing form gets the record's values back and editing ends |
| MedicineDetailPanel.MedicineDetailPanelComponent.SaveRecord | src/app/features/dashboard/patient-detail/medicine-detail-panel/medicine-detail-panel.component.ts:164-183 | a request exactly for a record with id and an existing valid form whose date is not invalid, with that id and the mapped payload; an invalid form is marked touched; `savingId` set only when a request is made |
| MedicineDetailPanel.MedicineDetailPanelComponent.OnSaveSuccess | src/app/features/dashboard/patient-detail/medicine-detail-panel/medicine-detail-panel.component.ts:186-190 | editing and saving end and the records are reloaded |
| MedicineDetailPanel.MedicineDetailPanelComponent.OnSaveError | src/app/features/dashboard/patient-detail/medicine-detail-panel/medicine-detail-panel.component.ts:184-191 | saving ends, nothing else changes |
| MedicineDetailPanel.MedicineDetailPanelComponent.DeleteRecord | src/app/features/dashboard/patient-detail/medicine-detail-panel/medicine-detail-panel.component.ts:195-202 | the id to delete, none for a record without id |
| MedicineDetailPanel.MedicineDetailPanelComponent.OnDeleteSuccess | src/app/features/dashboard/patient-detail/medicine-detail-panel/medicine-detail-panel.component.ts:204-209 | editing ends only if it was the deleted record's; the records are reloaded |
| MedicineDetailPanel.MedicineDetailPanelComponent.SubmitCreate | src/app/features/dashboard/patient-detail/medicine-detail-panel/medicine-detail-panel.component.ts:215-228 | a payload exactly for a truthy patient id, a valid form and a date that is not invalid, mapped for the panel's patient; `creating` set; an invalid form is marked touched |
| MedicineDetailPanel.MedicineDetailPanelComponent.OnCreateSuccess | src/app/features/dashboard/patient-detail/medicine-detail-panel/medicine-detail-panel.component.ts:231-247 | the form is reset to the current instant, no medicine and empty texts, creation ends and the records are reloaded |
| MedicineDetailPanel.MedicineDetailPanelComponent.OnCreateError | src/app/features/dashboard/patient-detail/medicine-detail-panel/medicine-detail-panel.component.ts:229-236 | creation ends and the form is kept |
| MedicineDetailPanel.MedicineDetailPanelComponent.IsEditing | src/app/features/dashboard/patient-detail/medicine-detail-panel/medicine-detail-panel.component.ts:249-252 | true exactly when the record has an id `===` the edited one |
| MedicineDetailPanel.MedicineDetailPanelComponent.GetRowForm | src/app/features/dashboard/patient-detail/medicine-detail-panel/medicine-detail-panel.component.ts:269-272 | the record's form exactly when it has an id and a form under that key |
| MedicineDetailPanel.MedicineDetailPanelComponent.MedicineLabel | src/app/features/dashboard/patient-detail/medicine-detail-panel/medicine-detail-panel.component.ts:274-283 | the label `getMedicineLabel` gives against the loaded catalogue |
| VitalSignDetailPanel.ExtractRecordId | src/app/features/dashboard/patient-detail/vital-sign-detail-panel/vital-sign-detail-panel.component.ts:368-371 | none exactly when `id` and `vitalSignDetailId` are both nullish; otherwise the first present one through `Number` |
| VitalSignDetailPanel.ExtractVitalSignId | src/app/features/dashboard/patient-detail/vital-sign-detail-panel/vital-sign-detail-panel.component.ts:373-375 | the embedded sign's id, none when there is no sign or it has no id |
| VitalSignDetailPanel.NormalizeRecords | src/app/features/dashboard/patient-detail/vital-sign-detail-panel/vital-sign-detail-panel.component.ts:312-317 | same length; only the dates change, to a `Date` or null, and the form values are unchanged |
| VitalSignDetailPanel.FindSignById | src/app/features/dashboard/patient-detail/vital-sign-detail-panel/vital-sign-detail-panel.component.ts:413-415 | a catalogue entry with that id, the first one; none exactly when no entry has it |
| VitalSignDetailPanel.BuildVitalSignPayload | src/app/features/dashboard/patient-detail/vital-sign-detail-panel/vital-sign-detail-panel.component.ts:404-411 | a non-finite id gives the blank sign without id; a finite one gives the first catalogue entry with that id, or a blank sign carrying it |
| VitalSignDetailPanel.MapFormToPayload | src/app/features/dashboard/patient-detail/vital-sign-detail-panel/vital-sign-detail-panel.component.ts:319-327 | the patient the form names or the panel's; the sign through `buildVitalSignPayload`; the value as trimmed text; the date kept |
| VitalSignDetailPanel.PayloadValueTrimmed | src/app/features/dashboard/patient-detail/vital-sign-detail-panel/vital-sign-detail-panel.component.ts:324 | the value has no surrounding whitespace and is empty exactly when the form's text is blank |
| VitalSignDetailPanel.GetVitalSignLabel | src/app/features/dashboard/patient-detail/vital-sign-detail-panel/vital-sign-detail-panel.component.ts:301-310 | the embedded sign's non-empty name; else for a non-zero id the catalogue name or `Signo #<id>`; else `Sin signo` |
| VitalSignDetailPanel.RowFormsFollowRecords | src/app/features/dashboard/patient-detail/vital-sign-detail-panel/vital-sign-detail-panel.component.ts:345-366 | after a sync the row keys are exactly those of the records with an id |
| VitalSignDetailPanel.ResolvePageSize | src/app/features/dashboard/patient-detail/vital-sign-detail-panel/vital-sign-detail-panel.component.ts:434-437 | the paginator's page size when positive, otherwise the fallback; positive whenever the fallback is |
| VitalSignDetailPanel.GetRenderedRowSpec | src/app/features/dashboard/patient-detail/vital-sign-detail-panel/vital-sign-detail-panel.component.ts:417-432 | a row exactly for a non-negative index whose position on the page lies in the data, and it is the row at that position; without a paginator the index is the position; with one it is page index times page size plus the index |
| VitalSignDetailPanel.BuildDateKeySpec | src/app/features/dashboard/patient-detail/vital-sign-detail-panel/vital-sign-detail-panel.component.ts:439-459 | `invalid` exactly for a falsy or unparsable value; `NaN-NaN-NaN` for an invalid `Date` object; otherwise the year, two-digit month and two-digit day of the date |
| VitalSignDetailPanel.KeyOfValidDate | src/app/features/dashboard/patient-detail/vital-sign-detail-panel/vital-sign-detail-panel.component.ts:444-447 | the key of a valid date is its day key |
| VitalSignDetailPanel.DayKeyInjective | src/app/features/dashboard/patient-detail/vital-sign-detail-panel/vital-sign-detail-panel.component.ts:439-448 | two valid dates have the same key exactly when they fall on the same calendar day |
| VitalSignDetailPanel.DayKeyDistinct | src/app/features/dashboard/patient-detail/vital-sign-detail-panel/vital-sign-detail-panel.component.ts:439-448 | a valid date's key is never `invalid` or `NaN-NaN-NaN` |
| VitalSignDetailPanel.DateDividerSpec | src/app/features/dashboard/patient-detail/vital-sign-detail-panel/vital-sign-detail-panel.component.ts:272-279 | the first row of a page has no divider; two drawn rows with valid dates are divided exactly when their days differ; rows carrying the same date value never are |
| VitalSignDetailPanel.VitalSignDetailPanelComponent.constructor | src/app/features/dashboard/patient-detail/vital-sign-detail-panel/vital-sign-detail-panel.component.ts:75-86 | the create form is the current instant, no sign and an empty value; nothing is loaded and no paginator is attached |
| VitalSignDetailPanel.VitalSignDetailPanelComponent.NgOnInit | src/app/features/dashboard/patient-detail/vital-sign-detail-panel/vital-sign-detail-panel.component.ts:88-93 | the catalogue is always requested; the records exactly when there is a patient, by range or plain as `LoadRequest` chooses |
| VitalSignDetailPanel.VitalSignDetailPanelComponent.NgOnChanges | src/app/features/dashboard/patient-detail/vital-sign-detail-panel/vital-sign-detail-panel.component.ts:95-103 | the inputs take their new values and a request is made exactly when the reload rule holds and there is a patient |
| VitalSignDetailPanel.VitalSignDetailPanelComponent.NgAfterViewInit | src/app/features/dashboard/patient-detail/vital-sign-detail-panel/vital-sign-detail-panel.component.ts:105-107 | the table gets its paginator |
| VitalSignDetailPanel.VitalSignDetailPanelComponent.LoadRecords | src/app/features/dashboard/patient-detail/vital-sign-detail-panel/vital-sign-detail-panel.component.ts:114-125 | the request `LoadRequest` chooses; `loading` set when one is made; no other state changes |
| VitalSignDetailPanel.VitalSignDetailPanelComponent.LoadVitalSigns | src/app/features/dashboard/patient-detail/vital-sign-detail-panel/vital-sign-detail-panel.component.ts:138-140 | the catalogue request is marked as loading and nothing else changes |
| VitalSignDetailPanel.VitalSignDetailPanelComponent.OnVitalSignsLoaded | src/app/features/dashboard/patient-detail/vital-sign-detail-panel/vital-sign-detail-panel.component.ts:143 | the catalogue is the answer, or empty for a null answer; loading ends |
| VitalSignDetailPanel.VitalSignDetailPanelComponent.OnVitalSignsError | src/app/features/dashboard/patient-detail/vital-sign-detail-panel/vital-sign-detail-panel.component.ts:144-147 | the catalogue is empty and loading ends |
| VitalSignDetailPanel.VitalSignDetailPanelComponent.OnRecordsLoaded | src/app/features/dashboard/patient-detail/vital-sign-detail-panel/vital-sign-detail-panel.component.ts:130-133 | the table holds the normalised records and the row forms are their sync |
| VitalSignDetailPanel.VitalSignDetailPanelComponent.OnRecordsError | src/app/features/dashboard/patient-detail/vital-sign-detail-panel/vital-sign-detail-panel.component.ts:128-134 | loading ends; records and forms are kept |
| VitalSignDetailPanel.VitalSignDetailPanelComponent.StartEdit | src/app/features/dashboard/patient-detail/vital-sign-detail-panel/vital-sign-detail-panel.component.ts:151-159 | a record without id changes nothing; otherwise its form is created if missing and it becomes the edited record |
| VitalSignDetailPanel.VitalSignDetailPanelComponent.CancelEdit | src/app/features/dashboard/patient-detail/vital-sign-detail-panel/vital-sign-detail-panel.component.ts:161-175 | a record without id changes nothing; otherwise an existing form gets the record's values back and editing ends |
| VitalSignDetailPanel.VitalSignDetailPanelComponent.SaveRecord | src/app/features/dashboard/patient-detail/vital-sign-detail-panel/vital-sign-detail-panel.component.ts:177-196 | a request exactly for a record with id and an existing valid form, with that id and the mapped payload; an invalid form is marked touched; `savingId` set only when a request is made |
| VitalSignDetailPanel.VitalSignDetailPanelComponent.OnSaveSuccess | src/app/features/dashboard/patient-detail/vital-sign-detail-panel/vital-sign-detail-panel.component.ts:199-203 | editing and saving end and the records are reloaded |
| VitalSignDetailPanel.VitalSignDetailPanelComponent.OnSaveError | src/app/features/dashboard/patient-detail/vital-sign-detail-panel/vital-sign-detail-panel.component.ts:197-204 | saving ends, nothing else changes |
| VitalSignDetailPanel.VitalSignDetailPanelComponent.DeleteRecord | src/app/features/dashboard/patient-detail/vital-sign-detail-panel/vital-sign-detail-panel.component.ts:208-220 | a deletion exactly for a record with id whose confirmation was accepted |
| VitalSignDetailPanel.VitalSignDetailPanelComponent.OnDeleteSuccess | src/app/features/dashboard/patient-detail/vital-sign-detail-panel/vital-sign-detail-panel.component.ts:222-227 | editing ends only if it was the deleted record's; the records are reloaded |
| VitalSignDetailPanel.VitalSignDetailPanelComponent.SubmitCreate | src/app/features/dashboard/patient-detail/vital-sign-detail-panel/vital-sign-detail-panel.component.ts:234-247 | a payload exactly for a truthy patient id and a valid form, mapped for the panel's patient; `creating` set; an invalid form is marked touched |
| VitalSignDetailPanel.VitalSignDetailPanelComponent.OnCreateSuccess | src/app/features/dashboard/patient-detail/vital-sign-detail-panel/vital-sign-detail-panel.component.ts:250-265 | the form is reset to the current instant, no sign and an empty value, creation ends and the records are reloaded |
| VitalSignDetailPanel.VitalSignDetailPanelComponent.OnCreateError | src/app/features/dashboard/patient-detail/vital-sign-detail-panel/vital-sign-detail-panel.component.ts:248-255 | creation ends and the form is kept |
| VitalSignDetailPanel.VitalSignDetailPanelComponent.IsEditing | src/app/features/dashboard/patient-detail/vital-sign-detail-panel/vital-sign-detail-panel.component.ts:267-270 | true exactly when the record has an id `===` the edited one |
| VitalSignDetailPanel.VitalSignDetailPanelComponent.GetRowForm | src/app/features/dashboard/patient-detail/vital-sign-detail-panel/vital-sign-detail-panel.component.ts:296-299 | the record's form exactly when it has an id and a form under that key |
| VitalSignDetailPanel.VitalSignDetailPanelComponent.VitalSignLabel | src/app/features/dashboard/patient-detail/vital-sign-detail-panel/vital-sign-detail-panel.component.ts:301-310 | the label `getVitalSignLabel` gives against the loaded catalogue |
| VitalSignDetailPanel.VitalSignDetailPanelComponent.ShouldShowDateDivider | src/app/features/dashboard/patient-detail/vital-sign-detail-panel/vital-sign-detail-panel.component.ts:272-279 | the divider rule on the loaded records and the attached paginator; never before the first row of a page |
| MedicineForm.UpdatedMedicines | src/app/features/dashboard/medicine-form/medicine-form.component.ts:242-251 | same length; an update without id or without a match changes nothing; otherwise the first entry with that id is replaced and every other position kept |
| MedicineForm.RowFormsFollowMedicines | src/app/features/dashboard/medicine-form/medicine-form.component.ts:214-224 | after a refresh the row keys are exactly the ids of the entries that have one |
| MedicineForm.MedicineFormComponent.constructor | src/app/features/dashboard/medicine-form/medicine-form.component.ts:50-58 | an empty catalogue, no row forms, and an empty untouched create form; nothing edited, saved or created; no name has the `required` error |
| MedicineForm.MedicineFormComponent.Submit | src/app/features/dashboard/medicine-form/medicine-form.component.ts:68-85 | a create payload exactly for a valid form whose name is not blank, carrying the trimmed name; `creating` set and the error cleared; an invalid form is marked touched; a valid form with a blank name sets the create form's `required` flag, and nothing else changes the flag; without a payload `creating` and the error are unchanged |
| MedicineForm.MedicineFormComponent.OnCreateSuccess | src/app/features/dashboard/medicine-form/medicine-form.component.ts:88-92 | the created entry goes first, the row forms are synced and the create form is cleared; the reset clears every `required` error |
| MedicineForm.MedicineFormComponent.OnCreateError | src/app/features/dashboard/medicine-form/medicine-form.component.ts:94-97 | the error is shown, creation ends and the catalogue and form are kept |
| MedicineForm.MedicineFormComponent.StartEdit | src/app/features/dashboard/medicine-form/medicine-form.component.ts:101-108 | an entry without id changes nothing; otherwise its row form is ensured with its name and it becomes the edited entry; the `required` error of that row is cleared, the others are kept |
| MedicineForm.MedicineFormComponent.CancelEdit | src/app/features/dashboard/medicine-form/medicine-form.component.ts:110-120 | an entry without id changes nothing; otherwise an existing row form gets the name back and editing ends; the `required` error of that row is cleared, the others are kept |
| MedicineForm.MedicineFormComponent.Save | src/app/features/dashboard/medicine-form/medicine-form.component.ts:122-141 | an update payload exactly for an entry with id whose row form exists, is valid and holds a non-blank name, carrying the id and the trimmed name; `savingId` set only then; an invalid form is marked touched; a valid row form with a blank name gets the `required` error, and no other row's error changes |
| MedicineForm.MedicineFormComponent.OnSaveSuccess | src/app/features/dashboard/medicine-form/medicine-form.component.ts:144-147 | the response, or the entry with the trimmed name, replaces the first entry with that id; the row forms are re-synced with the new list, or left as they were without a match; editing and saving end; the create form, the creating flag and the submit error are not touched; the row `required` errors are cleared exactly when the forms are re-synced |
| MedicineForm.MedicineFormComponent.OnSaveError | src/app/features/dashboard/medicine-form/medicine-form.component.ts:149-152 | the row form gets the entry's name back and saving ends; the `required` error of that row is cleared, the others are kept |
| MedicineForm.MedicineFormComponent.Delete | src/app/features/dashboard/medicine-form/medicine-form.component.ts:156-164 | the id to delete, none for an entry without id |
| MedicineForm.MedicineFormComponent.IsEditing | src/app/features/dashboard/medicine-form/medicine-form.component.ts:173-178 | never for a missing id; otherwise true exactly when it is the edited id |
| MedicineForm.MedicineFormComponent.GetRowForm | src/app/features/dashboard/medicine-form/medicine-form.component.ts:180-185 | the row form under the id's key, none for a missing id or a missing form |
| MedicineForm.MedicineFormComponent.OnLoaded | src/app/features/dashboard/medicine-form/medicine-form.component.ts:187-201 | the catalogue is the answer, or empty for a null answer or a failed load, and the row forms are synced to it; the sync sets every row form's value, so no row keeps a `required` error |
| MedicineForm.MedicineFormComponent.RefreshTable | src/app/features/dashboard/medicine-form/medicine-form.component.ts:203-212 | the row forms become the sync of the catalogue; nothing else changes; the sync sets every row form's value, so no row keeps a `required` error |
| MedicineForm.MedicineFormComponent.EnsureRowForm | src/app/features/dashboard/medicine-form/medicine-form.component.ts:226-240 | an entry without id changes nothing; otherwise the form under its key takes its name, keeping the touched state of an existing form; the `required` error of that row is cleared, the others are kept |
| MedicineForm.MedicineFormComponent.ApplyMedicineUpdate | src/app/features/dashboard/medicine-form/medicine-form.component.ts:242-251 | the catalogue becomes `UpdatedMedicines`; the row forms are synced exactly when an entry was replaced; the row `required` errors are cleared exactly when the forms are synced |
| MedicineForm.MedicineFormComponent.RemoveMedicineFromTable | src/app/features/dashboard/medicine-form/medicine-form.component.ts:253-263 | every entry with that id is dropped, its form deleted, the editing and saving ids equal to it cleared, and the rest synced; the sync sets every row form's value, so no row keeps a `required` error |
| MedicineForm.MedicineFormComponent.PrependMedicine | src/app/features/dashboard/medicine-form/medicine-form.component.ts:265-268 | the entry goes first and the row forms are synced; the sync sets every row form's value, so no row keeps a `required` error |
| VitalSignForm.UserIdClaim | src/app/features/dashboard/vital-sign-form/vital-sign-form.component.ts:92 | the token's `userId` claim when present, 0 without a token or that claim |
| VitalSignForm.UpdatedSigns | src/app/features/dashboard/vital-sign-form/vital-sign-form.component.ts:251-260 | same length; an update without id or without a match changes nothing; otherwise the first entry with that id is replaced and every other position kept |
| VitalSignForm.RowFormsFollowSigns | src/app/features/dashboard/vital-sign-form/vital-sign-form.component.ts:223-233 | after a refresh the row keys are exactly the ids of the entries that have one |
| VitalSignForm.VitalSignFormComponent.constructor | src/app/features/dashboard/vital-sign-form/vital-sign-form.component.ts:53-67 | an empty catalogue, no row forms, and an empty untouched create form; nothing edited, saved or created; the stored token's claims are kept for the payloads; no name has the `required` error |
| VitalSignForm.VitalSignFormComponent.Submit | src/app/features/dashboard/vital-sign-form/vital-sign-form.component.ts:77-94 | a create payload exactly for a valid form whose name is not blank, carrying the trimmed name and the token's `userId ?? 0`; `creating` set and the error cleared; an invalid form is marked touched; a valid form with a blank name sets the create form's `required` flag, and nothing else changes the flag; without a payload `creating` and the error are unchanged |
| VitalSignForm.VitalSignFormComponent.OnCreateSuccess | src/app/features/dashboard/vital-sign-form/vital-sign-form.component.ts:97-101 | the created entry goes first, the row forms are synced and the create form is cleared; the reset clears every `required` error |
| VitalSignForm.VitalSignFormComponent.OnCreateError | src/app/features/dashboard/vital-sign-form/vital-sign-form.component.ts:103-106 | the error is shown, creation ends and the catalogue and form are kept |
| VitalSignForm.VitalSignFormComponent.StartEdit | src/app/features/dashboard/vital-sign-form/vital-sign-form.component.ts:110-117 | an entry without id changes nothing; otherwise its row form is ensured with its name and it becomes the edited entry; the `required` error of that row is cleared, the others are kept |
| VitalSignForm.VitalSignFormComponent.CancelEdit | src/app/features/dashboard/vital-sign-form/vital-sign-form.component.ts:119-129 | an entry without id changes nothing; otherwise an existing row form gets the name back and editing ends; the `required` error of that row is cleared, the others are kept |
| VitalSignForm.VitalSignFormComponent.Save | src/app/features/dashboard/vital-sign-form/vital-sign-form.component.ts:131-150 | an update payload exactly for an entry with id whose row form exists, is valid and holds a non-blank name, carrying the id and the trimmed name and the token's `userId ?? 0`; `savingId` set only then; an invalid form is marked touched; a valid row form with a blank name gets the `required` error, and no other row's error changes |
| VitalSignForm.VitalSignFormComponent.OnSaveSuccess | src/app/features/dashboard/vital-sign-form/vital-sign-form.component.ts:153-156 | the response, or the entry with the trimmed name, replaces the first entry with that id; the row forms are re-synced with the new list, or left as they were without a match; editing and saving end; the create form, the creating flag and the submit error are not touched; the row `required` errors are cleared exactly when the forms are re-synced |
| VitalSignForm.VitalSignFormComponent.OnSaveError | src/app/features/dashboard/vital-sign-form/vital-sign-form.component.ts:158-161 | the row form gets the entry's name back and saving ends; the `required` error of that row is cleared, the others are kept |
| VitalSignForm.VitalSignFormComponent.Delete | src/app/features/dashboard/vital-sign-form/vital-sign-form.component.ts:165-173 | the id to delete, none for an entry without id |
| VitalSignForm.VitalSignFormComponent.IsEditing | src/app/features/dashboard/vital-sign-form/vital-sign-form.component.ts:182-187 | never for a missing id; otherwise true exactly when it is the edited id |
| VitalSignForm.VitalSignFormComponent.GetRowForm | src/app/features/dashboard/vital-sign-form/vital-sign-form.component.ts:189-194 | the row form under the id's key, none for a missing id or a missing form |
| VitalSignForm.VitalSignFormComponent.OnLoaded | src/app/features/dashboard/vital-sign-form/vital-sign-form.component.ts:196-210 | the catalogue is the answer, or empty for a null answer or a failed load, and the row forms are synced to it; the sync sets every row form's value, so no row keeps a `required` error |
| VitalSignForm.VitalSignFormComponent.RefreshTable | src/app/features/dashboard/vital-sign-form/vital-sign-form.component.ts:212-221 | the row forms become the sync of the catalogue; nothing else changes; the sync sets every row form's value, so no row keeps a `required` error |
| VitalSignForm.VitalSignFormComponent.EnsureRowForm | src/app/features/dashboard/vital-sign-form/vital-sign-form.component.ts:235-249 | an entry without id changes nothing; otherwise the form under its key takes its name, keeping the touched state of an existing form; the `required` error of that row is cleared, the others are kept |
| VitalSignForm.VitalSignFormComponent.ApplyVitalSignUpdate | src/app/features/dashboard/vital-sign-form/vital-sign-form.component.ts:251-260 | the catalogue becomes `UpdatedSigns`; the row forms are synced exactly when an entry was replaced; the row `required` errors are cleared exactly when the forms are synced |
| VitalSignForm.VitalSignFormComponent.RemoveVitalSignFromTable | src/app/features/dashboard/vital-sign-form/vital-sign-form.component.ts:262-272 | every entry with that id is dropped, its form deleted, the editing and saving ids equal to it cleared, and the rest synced; the sync sets every row form's value, so no row keeps a `required` error |
| VitalSignForm.VitalSignFormComponent.PrependVitalSign | src/app/features/dashboard/vital-sign-form/vital-sign-form.component.ts:274-277 | the entry goes first and the row forms are synced; the sync sets every row form's value, so no row keeps a `required` error |
| CalculatedFluidBalance.NormalizeSummaries | src/app/features/dashboard/patient-detail/calculated-fluid-balance/calculated-fluid-balance.component.ts:186-191 | a list is kept as it is, a single summary is wrapped, a missing answer gives none |
| CalculatedFluidBalance.NormalizeReports | src/app/features/dashboard/patient-detail/calculated-fluid-balance/calculated-fluid-balance.component.ts:193-198 | same length; each report keeps every field but its date, which becomes a `Date` or null |
| CalculatedFluidBalance.KeptSummaries | src/app/features/dashboard/patient-detail/calculated-fluid-balance/calculated-fluid-balance.component.ts:95-100 | at most `MAX_BALANCES` (15) summaries, the leading ones of the answer in order, each with its report list (empty when missing) normalised and of the same length |
| CalculatedFluidBalance.HasDataOfKept | src/app/features/dashboard/patient-detail/calculated-fluid-balance/calculated-fluid-balance.component.ts:174-176 | the page has data exactly when one of the first fifteen summaries of the answer has a report; later ones do not count |
| CalculatedFluidBalance.ParseDate | src/app/features/dashboard/patient-detail/calculated-fluid-balance/calculated-fluid-balance.component.ts:178-184 | a date exactly for a present, non-empty and parsable parameter, and then the parsed one |
| CalculatedFluidBalance.ResolvePatientId | src/app/features/dashboard/patient-detail/calculated-fluid-balance/calculated-fluid-balance.component.ts:62-64 | a patient exactly when the parameter reads as a finite number greater than 0, and then that number |
| CalculatedFluidBalance.ResolvePatientIdOfDecimal | src/app/features/dashboard/patient-detail/calculated-fluid-balance/calculated-fluid-balance.component.ts:62 | a positive id written in decimal resolves to itself |
| CalculatedFluidBalance.FormatForFileIsDatePart | src/app/features/dashboard/patient-detail/calculated-fluid-balance/calculated-fluid-balance.component.ts:233-235 | the text before the first 'T' of the ISO string is the calendar day `YYYY-MM-DD` |
| CalculatedFluidBalance.BuildPdfFileNameSpec | src/app/features/dashboard/patient-detail/calculated-fluid-balance/calculated-fluid-balance.component.ts:225-231 | `Balance_<name>-<start>-<end>.pdf` when both dates are set, otherwise `Balance_<name>-<today>.pdf`; the name part has its whitespace runs replaced and so carries none |
| CalculatedFluidBalance.DatesPartSpec | src/app/features/dashboard/patient-detail/calculated-fluid-balance/calculated-fluid-balance.component.ts:227-230 | both dates give `-<start>-<end>`, otherwise `-<today>`, as calendar days |
| CalculatedFluidBalance.FileNamePartNoWhitespace | src/app/features/dashboard/patient-detail/calculated-fluid-balance/calculated-fluid-balance.component.ts:226 | a non-empty label contributes no whitespace to the file name |
| CalculatedFluidBalance.CalculatedFluidBalanceComponent.constructor | src/app/features/dashboard/patient-detail/calculated-fluid-balance/calculated-fluid-balance.component.ts:51-56 | no patient, label or range and no summaries; nothing loading, downloading or e-mailing |
| CalculatedFluidBalance.CalculatedFluidBalanceComponent.OnRouteParams | src/app/features/dashboard/patient-detail/calculated-fluid-balance/calculated-fluid-balance.component.ts:58-75 | an id that is not a finite positive number sends the user to the dashboard and changes nothing; otherwise patient, label and both dates are taken and the balance is requested |
| CalculatedFluidBalance.CalculatedFluidBalanceComponent.LoadCalculatedBalance | src/app/features/dashboard/patient-detail/calculated-fluid-balance/calculated-fluid-balance.component.ts:82-91 | a request for the patient and range exactly when there is a patient; `loading` set then |
| CalculatedFluidBalance.CalculatedFluidBalanceComponent.OnBalanceLoaded | src/app/features/dashboard/patient-detail/calculated-fluid-balance/calculated-fluid-balance.component.ts:94-105 | the summaries are those `KeptSummaries` keeps (at most 15); the no-data notice shows exactly when none has a report; loading ends |
| CalculatedFluidBalance.CalculatedFluidBalanceComponent.OnBalanceError | src/app/features/dashboard/patient-detail/calculated-fluid-balance/calculated-fluid-balance.component.ts:92-106 | loading ends and the summaries are kept |
| CalculatedFluidBalance.CalculatedFluidBalanceComponent.DownloadPdf | src/app/features/dashboard/patient-detail/calculated-fluid-balance/calculated-fluid-balance.component.ts:110-119 | a request exactly with a patient and no download running; `downloading` set then |
| CalculatedFluidBalance.CalculatedFluidBalanceComponent.OnPdfLoaded | src/app/features/dashboard/patient-detail/calculated-fluid-balance/calculated-fluid-balance.component.ts:215-223 | the download is named by `buildPdfFileName` on that day and the download ends |
| CalculatedFluidBalance.CalculatedFluidBalanceComponent.OnPdfError | src/app/features/dashboard/patient-detail/calculated-fluid-balance/calculated-fluid-balance.component.ts:120-123 | the download ends |
| CalculatedFluidBalance.CalculatedFluidBalanceComponent.SendPdfByEmail | src/app/features/dashboard/patient-detail/calculated-fluid-balance/calculated-fluid-balance.component.ts:127-136 | a request exactly with a patient and no sending running; `emailing` set then |
| CalculatedFluidBalance.CalculatedFluidBalanceComponent.OnEmailDone | src/app/features/dashboard/patient-detail/calculated-fluid-balance/calculated-fluid-balance.component.ts:137-141 | the sending ends |
| CalculatedFluidBalance.CalculatedFluidBalanceComponent.GoBack | src/app/features/dashboard/patient-detail/calculated-fluid-balance/calculated-fluid-balance.component.ts:144-150 | the patient's page, or the dashboard without a patient |
| PatientDetail.SlotDate | src/app/features/dashboard/patient-detail/patient-detail.component.ts:368 | on a valid base, the instant h:m:00.000 on the day the constructor gives for the base's fields (1900 plus the year for years 0..99), which outside those years is the base's day |
| PatientDetail.FormatTime | src/app/features/dashboard/patient-detail/patient-detail.component.ts:369 | the normalized text is the two-digit hour, ':' and the two-digit minute |
| PatientDetail.SlotAt | src/app/features/dashboard/patient-detail/patient-detail.component.ts:368-374 | on a valid base, a slot's text is "HH:MM" and its date is valid, at exactly that hour and minute of the day the constructor gives for the base; outside years 0..99 that is the base's day (an invalid base throws, see `BuildSlotsFromDate`) |
| PatientDetail.ComposeSlot | src/app/features/dashboard/patient-detail/patient-detail.component.ts:351-375 | on a valid base: no slot for an empty string; a slot only for in-range hour and minute fields, and then the slot at that time of the day the constructor gives for the base |
| PatientDetail.ComposeSlotSpec | src/app/features/dashboard/patient-detail/patient-detail.component.ts:351-366 | a non-empty time gives a slot exactly when hour is in 0..23 and minute in 0..59 |
| PatientDetail.ComposeSlotOfFields | src/app/features/dashboard/patient-detail/patient-detail.component.ts:356-369 | "HH:MM" with two-digit fields gives the slot at h:m when in range, none otherwise |
| PatientDetail.ComposeSlotNormalizes | src/app/features/dashboard/patient-detail/patient-detail.component.ts:369-372 | composing a slot's own normalized text again gives the same slot |
| PatientDetail.ComposeSlotHourOnly | src/app/features/dashboard/patient-detail/patient-detail.component.ts:356 | a time without ':' is on the hour: the minute part defaults to "0" |
| PatientDetail.ComposeSlotOfNumbers | src/app/features/dashboard/patient-detail/patient-detail.component.ts:357-368 | fields reading as an in-range hour and minute give the slot at that time |
| PatientDetail.ComposeSlotOfParts | src/app/features/dashboard/patient-detail/patient-detail.component.ts:356-358 | the slot depends on the string only through its first two ':'-separated parts |
| PatientDetail.ComposeSlotIgnoresExtraParts | src/app/features/dashboard/patient-detail/patient-detail.component.ts:356 | anything after a second ':' is ignored |
| PatientDetail.ComposeSlotExampleHour | src/app/features/dashboard/patient-detail/patient-detail.component.ts:356-369 | "8" is the slot 08:00 |
| PatientDetail.SameTimeIffSameText | src/app/features/dashboard/patient-detail/patient-detail.component.ts:384 | on one day, two slots match by time value exactly when their "HH:MM" texts agree |
| PatientDetail.SlotAtSameTime | src/app/features/dashboard/patient-detail/patient-detail.component.ts:368 | two slots of one day share an instant exactly when hour and minute agree |
| PatientDetail.SlotAtSameText | src/app/features/dashboard/patient-detail/patient-detail.component.ts:369 | two slots share their text exactly when hour and minute agree |
| PatientDetail.MapCompose | src/app/features/dashboard/patient-detail/patient-detail.component.ts:346 | one composition per time, in order |
| PatientDetail.PresentSpec | src/app/features/dashboard/patient-detail/patient-detail.component.ts:347 | the filter keeps exactly the present slots |
| PatientDetail.ComposedSlotsSpec | src/app/features/dashboard/patient-detail/patient-detail.component.ts:345-347 | every kept slot comes from a time, and every valid time's slot is kept |
| PatientDetail.InsertBy | src/app/features/dashboard/patient-detail/patient-detail.component.ts:348 | insertion into a sorted sequence keeps it sorted and adds exactly that element |
| PatientDetail.SortedCons | src/app/features/dashboard/patient-detail/patient-detail.component.ts:348 | a head no larger than the first element keeps a sequence sorted |
| PatientDetail.SortBy | src/app/features/dashboard/patient-detail/patient-detail.component.ts:348 | the result is sorted by the key and a permutation of the input |
| PatientDetail.SortByTime | src/app/features/dashboard/patient-detail/patient-detail.component.ts:348 | the slots sorted ascending by time value, a permutation of the input |
| PatientDetail.BuildSlotsForDateSpec | src/app/features/dashboard/patient-detail/patient-detail.component.ts:344-349 | the day's slots are sorted by time, a permutation of the composed slots, each from a time, and complete |
| PatientDetail.BuildSlotsForDateOfDay | src/app/features/dashboard/patient-detail/patient-detail.component.ts:344-349 | on a valid base every slot is at a whole minute of the day the constructor gives for it, 1900 plus the year for years 0..99 and the base's own day otherwise |
| PatientDetail.PresentOfThree | src/app/features/dashboard/patient-detail/patient-detail.component.ts:347 | filtering two present slots and an absent one keeps the two, in order |
| PatientDetail.SortByTimeSwaps | src/app/features/dashboard/patient-detail/patient-detail.component.ts:348 | two slots in the wrong order are swapped |
| PatientDetail.SlotAtOrder | src/app/features/dashboard/patient-detail/patient-detail.component.ts:348 | on one day an earlier time of day is an earlier slot |
| PatientDetail.BuildSlotsForDateExample | src/app/features/dashboard/patient-detail/patient-detail.component.ts:344-349 | a later time listed first, an earlier one and an out-of-range one give the two slots in time order |
| PatientDetail.BuildSlotsOfThree | src/app/features/dashboard/patient-detail/patient-detail.component.ts:344-349 | two valid times listed late first and an invalid one give the slots in time order |
| PatientDetail.MapComposeOfThree | src/app/features/dashboard/patient-detail/patient-detail.component.ts:346 | mapping three times gives their three compositions |
| PatientDetail.NormalizeToDate | src/app/features/dashboard/patient-detail/patient-detail.component.ts:391-406 | nothing for a falsy or other value; a copy of a date; a parsed string or number only when valid |
| PatientDetail.FindByTime | src/app/features/dashboard/patient-detail/patient-detail.component.ts:384 | none exactly when no slot has the timestamp; otherwise a slot with it |
| PatientDetail.FindByTimeIsFirst | src/app/features/dashboard/patient-detail/patient-detail.component.ts:384 | the slot found is the first with that timestamp |
| PatientDetail.FindSlotForValue | src/app/features/dashboard/patient-detail/patient-detail.component.ts:377-385 | a slot found is one of the slots, valid, at the normalized value's instant |
| PatientDetail.IsAllowedSlotSpec | src/app/features/dashboard/patient-detail/patient-detail.component.ts:387-389 | allowed exactly when the value normalizes to a valid date at some slot's instant; every slot's own date is allowed; an invalid date never |
| PatientDetail.FindSlotOfOwnDate | src/app/features/dashboard/patient-detail/patient-detail.component.ts:377-385 | among one day's slots, the slot found for a slot's date carries that very date |
| PatientDetail.ExtractBalanceId | src/app/features/dashboard/patient-detail/patient-detail.component.ts:448-450 | `id`, else `fluidBalanceId`, else null; never undefined |
| PatientDetail.MapFormToPayload | src/app/features/dashboard/patient-detail/patient-detail.component.ts:437-446 | the normalized date, the amounts as numbers, the description or '', and the patient id |
| PatientDetail.NormalizeBalances | src/app/features/dashboard/patient-detail/patient-detail.component.ts:420-425 | one record per record, only its date normalized |
| PatientDetail.ThrowsOnInvalidBaseSpec | src/app/features/dashboard/patient-detail/patient-detail.component.ts:344-347 | on an invalid base, mapping `composeSlot` over the times throws exactly when some time is in range |
| PatientDetail.BuildSlotsFromDate | src/app/features/dashboard/patient-detail/patient-detail.component.ts:344-375 | throws exactly on an invalid base with a time in range (the label of an invalid date cannot be formatted, line 373); a valid base gives that day's slots, an invalid one without a time in range none |
| PatientDetail.SlotsForValue | src/app/features/dashboard/patient-detail/patient-detail.component.ts:459-465 | no slots without a date, that day's slots for a valid date, and a throw exactly for an invalid `Date` object while some time is in range |
| PatientDetail.ExampleTimesInRange | src/app/features/dashboard/patient-detail/patient-detail.component.ts:352-366 | "08:00" is in range and "23:75" is not |
| PatientDetail.InvalidBalanceDateThrows | src/app/features/dashboard/patient-detail/patient-detail.component.ts:459-465 | an invalid balance date throws with "08:00" active and gives no slots with only "23:75" |
| PatientDetail.InitialEditDate | src/app/features/dashboard/patient-detail/patient-detail.component.ts:242 | the matching slot's date when the value is allowed, the value itself otherwise |
| PatientDetail.UpdatedDateValue | src/app/features/dashboard/patient-detail/patient-detail.component.ts:319-342 | null without slots or without a match, otherwise the matching slot's date |
| PatientDetail.UpdatedDateValueSpec | src/app/features/dashboard/patient-detail/patient-detail.component.ts:332-341 | the control holds a value exactly when the previous one was allowed, and that value is allowed, at the same instant |
| PatientDetail.UpdatedDateValueIdempotent | src/app/features/dashboard/patient-detail/patient-detail.component.ts:319-342 | on one day's slots a second update changes nothing |
| PatientDetail.EarlyDateFindsNoSlot | src/app/features/dashboard/patient-detail/patient-detail.component.ts:368-385 | a date in years 0..99 matches no slot built from it, since those slots lie in 1900 plus the year |
| PatientDetail.EditStartsOnRecordedSlot | src/app/features/dashboard/patient-detail/patient-detail.component.ts:235-247 | outside years 0..99, a balance recorded at an active time starts the edit on the slot at that very instant; in years 0..99 the slots lie in 1900 plus the year and no slot is found |
| PatientDetail.StartAfterEndCases | src/app/features/dashboard/patient-detail/patient-detail.component.ts:179 | a start not after the end passes, a later start is refused, an invalid or missing date passes |
| PatientDetail.PatientDetailComponent.constructor | src/app/features/dashboard/patient-detail/patient-detail.component.ts:60-112 | the default label, empty forms and lists, the create date control disabled |
| PatientDetail.PatientDetailComponent.HasActiveDates | src/app/features/dashboard/patient-detail/patient-detail.component.ts:114-116 | true exactly when the create date control is enabled, i.e. when there are slots |
| PatientDetail.PatientDetailComponent.OnRouteParams | src/app/features/dashboard/patient-detail/patient-detail.component.ts:118-135 | a non-positive or non-numeric id goes to the dashboard; otherwise the id, the query name else route name when non-empty, and both loads |
| PatientDetail.PatientDetailComponent.LoadBalances | src/app/features/dashboard/patient-detail/patient-detail.component.ts:146-149 | all of the patient's balances are requested and loading is set |
| PatientDetail.PatientDetailComponent.OnBalancesLoaded | src/app/features/dashboard/patient-detail/patient-detail.component.ts:151-154 | the balances are the normalized reply and loading ends |
| PatientDetail.PatientDetailComponent.OnBalancesError | src/app/features/dashboard/patient-detail/patient-detail.component.ts:155 | loading ends, the list is kept |
| PatientDetail.PatientDetailComponent.LoadActiveDates | src/app/features/dashboard/patient-detail/patient-detail.component.ts:159-162 | loading of the active times is set |
| PatientDetail.PatientDetailComponent.SetActiveDates | src/app/features/dashboard/patient-detail/patient-detail.component.ts:312-317 | the times and today's slots are stored, all on the day the constructor gives for `now`, and the date control follows them |
| PatientDetail.PatientDetailComponent.OnActiveDatesLoaded | src/app/features/dashboard/patient-detail/patient-detail.component.ts:163-164 | the times' slots are set and loading ends |
| PatientDetail.PatientDetailComponent.OnActiveDatesError | src/app/features/dashboard/patient-detail/patient-detail.component.ts:165-168 | as if no times arrived: slots empty, control disabled and emptied |
| PatientDetail.PatientDetailComponent.UpdateCreateDateControlState | src/app/features/dashboard/patient-detail/patient-detail.component.ts:319-342 | enabled exactly with slots; value moved to the matching slot or emptied; the error cleared |
| PatientDetail.PatientDetailComponent.EnterCreateForm | src/app/features/dashboard/patient-detail/patient-detail.component.ts:97-111 | a disabled date control keeps its value |
| PatientDetail.PatientDetailComponent.SubmitCreate | src/app/features/dashboard/patient-detail/patient-detail.component.ts:200-222 | a request exactly for a valid form whose date is at an active slot, at that slot's date; the inactiveDate error otherwise |
| PatientDetail.PatientDetailComponent.OnCreateSuccess | src/app/features/dashboard/patient-detail/patient-detail.component.ts:224-230 | the form is reset, the control follows the slots, both loads start |
| PatientDetail.PatientDetailComponent.OnCreateError | src/app/features/dashboard/patient-detail/patient-detail.component.ts:222-231 | creating ends, the form is kept |
| PatientDetail.PatientDetailComponent.StartEdit | src/app/features/dashboard/patient-detail/patient-detail.component.ts:235-247 | the id is set; it throws exactly for an invalid `Date` while some active time is in range, and then the slots and the form keep their values; otherwise the slots of the balance's day and the form starting on the matching slot |
| PatientDetail.PatientDetailComponent.CancelEdit | src/app/features/dashboard/patient-detail/patient-detail.component.ts:249-253 | the edit form reset, no balance being edited, no slots |
| PatientDetail.PatientDetailComponent.EnterEditForm | src/app/features/dashboard/patient-detail/patient-detail.component.ts:104-109 | the edit form holds the user's values |
| PatientDetail.PatientDetailComponent.SubmitEdit | src/app/features/dashboard/patient-detail/patient-detail.component.ts:255-271 | a request exactly for a valid form with a truthy id whose date is at an edit slot, at that slot's date |
| PatientDetail.PatientDetailComponent.OnEditSuccess | src/app/features/dashboard/patient-detail/patient-detail.component.ts:271-277 | the edit ends and the balances are requested |
| PatientDetail.PatientDetailComponent.OnEditError | src/app/features/dashboard/patient-detail/patient-detail.component.ts:271-278 | saving ends, the edit stays open |
| PatientDetail.PatientDetailComponent.DeleteBalance | src/app/features/dashboard/patient-detail/patient-detail.component.ts:282-288 | a target exactly when the extracted id is truthy |
| PatientDetail.PatientDetailComponent.OnDeleteSuccess | src/app/features/dashboard/patient-detail/patient-detail.component.ts:290-293 | the balances are requested |
| PatientDetail.PatientDetailComponent.IsEditingBalance | src/app/features/dashboard/patient-detail/patient-detail.component.ts:307-310 | true only with a non-null id; for a numeric id exactly when it is the one being edited |
| PatientDetail.PatientDetailComponent.EnterFilter | src/app/features/dashboard/patient-detail/patient-detail.component.ts:172-178 | the filter holds the user's dates |
| PatientDetail.PatientDetailComponent.ApplyDateFilter | src/app/features/dashboard/patient-detail/patient-detail.component.ts:172-185 | a request exactly for a valid form whose start is not after its end |
| PatientDetail.PatientDetailComponent.ClearDateFilter | src/app/features/dashboard/patient-detail/patient-detail.component.ts:195-198 | the filter is emptied and all balances requested |
| Js.TrimStartSpec | src/app/features/auth/update-password/update-password.component.ts:63 | `trimStart` removes exactly a whitespace-only prefix and leaves no leading whitespace |
| Js.TrimEndSpec | src/app/features/auth/update-password/update-password.component.ts:63 | `trimEnd` removes exactly a whitespace-only suffix and leaves no trailing whitespace |
| Js.TrimShape | src/app/features/auth/update-password/update-password.component.ts:63 | `trim()` is the input with a whitespace-only prefix and suffix removed, with no whitespace at either end |
| Js.TrimEmptyIff | src/app/features/auth/update-password/update-password.component.ts:63 | `s.trim() === ''` exactly when s is whitespace only |
| Js.TrimIdempotent | src/app/features/dashboard/medicine-form/medicine-form.component.ts:74 | trimming a trimmed name changes nothing |
| Js.NatToStringRoundTrip | src/app/features/dashboard/vital-sign-form/vital-sign-form.component.ts:240 | the decimal digits of n read back as n |
| Js.NatToStringInjective | src/app/features/dashboard/vital-sign-form/vital-sign-form.component.ts:240 | distinct ids have distinct `toString()` keys |
| Js.StringToNumberOfNatToString | src/app/features/dashboard/patient-detail/patient-detail.component.ts:357 | `Number(String(n))` is n |
| Js.PadStart | src/app/features/dashboard/patient-detail/patient-detail.component.ts:369 | `padStart(width, '0')` prepends exactly the zeros that bring the string to the width |
| Js.TwoDigits | src/app/features/dashboard/patient-detail/vital-sign-detail-panel/vital-sign-detail-panel.component.ts:445-446 | two digits whose value is n |
| Js.PadStartTwoDigits | src/app/features/dashboard/patient-detail/patient-detail.component.ts:369 | `n.toString().padStart(2, '0')` is the two-digit form of n |
| Js.IncludesIff | src/app/core/interceptors/jwt.interceptor.ts:15 | `includes` holds exactly when the substring occurs at some position |
| Js.SplitJoin | src/app/core/service/util/utility.ts:11 | joining the split parts with the separator gives the string back, and no part contains it |
| Js.SplitNoSeparator | src/app/core/service/util/utility.ts:11 | a string without the separator is one part |
| Js.SplitFirst | src/app/features/dashboard/patient-detail/patient-detail.component.ts:356 | the part before the first separator comes first and the rest is split on |
| Js.ReplaceWhitespaceRunsProps | src/app/features/dashboard/patient-detail/calculated-fluid-balance/calculated-fluid-balance.component.ts:226 | `replace(/\s+/g, '_')` leaves no whitespace, never lengthens, and keeps a string without whitespace |
| Dates.NewDate | src/app/features/dashboard/patient-detail/patient-detail.component.ts:423 | `new Date(d)` of a Date is a copy of it |
| Dates.MakeFullYear | src/app/features/dashboard/patient-detail/patient-detail.component.ts:368 | a year 0..99 given to the `Date` constructor or `Date.UTC` means 1900 plus that year; any other year is kept |
| Dates.MakeFullYearLeap | src/app/features/dashboard/patient-detail/patient-detail.component.ts:368 | years 1..99 and 1901..1999 have the same leap years; year 0 is a leap year and 1900 is not |
| Dates.ConstructedDay | src/app/features/dashboard/patient-detail/patient-detail.component.ts:368 | the midnight the constructor lands on: outside years 0..99 the same day; in them 1900 plus the year with the same month and day, except that 29 February of year 0 becomes 1 March 1900 |
| Dates.EarlyYearsBefore1900 | src/app/features/dashboard/patient-detail/patient-detail.component.ts:368 | every instant of years 0..99 comes before every instant from 1900 on |
| Dates.SetHours | src/app/core/service/util/utility.ts:19 | `setHours(h, m, 0, 0)` keeps the calendar day and sets that time |
| Dates.AtTime | src/app/features/dashboard/patient-detail/patient-detail.component.ts:368 | the day `ConstructedDay` gives for the fields, at h:m:00.000; outside years 0..99 the same calendar day |
| Dates.MsOfDay | src/app/features/dashboard/patient-detail/patient-detail.component.ts:384 | the time of day is within one day's milliseconds |
| Dates.SameDayTimeValue | src/app/features/dashboard/patient-detail/patient-detail.component.ts:348 | on one day, time values differ as the times of day do |
| Dates.MsOfDayInjective | src/app/features/dashboard/patient-detail/patient-detail.component.ts:384 | equal times of day have equal hour, minute, second and millisecond |
| Dates.FixedDigits | src/app/features/dashboard/patient-detail/medicine-detail-panel/medicine-detail-panel.component.ts:367 | exactly `width` digits whose value is n |
| Dates.IsoYear | src/app/features/dashboard/patient-detail/medicine-detail-panel/medicine-detail-panel.component.ts:367 | four digits for years 0..9999, otherwise a sign and six digits |
| Dates.ToIsoString | src/app/features/dashboard/patient-detail/medicine-detail-panel/medicine-detail-panel.component.ts:367 | `toISOString()` throws exactly for an invalid date |
| Dates.IsoDatePartHasNoT | src/app/features/dashboard/patient-detail/calculated-fluid-balance/calculated-fluid-balance.component.ts:234 | the calendar-day part of an ISO string contains no 'T' |

## Left out

- **Time zone.** The local time zone is fixed and equal to UTC, and daylight saving is
  not modelled. So `toUtcIsoString` is modelled without an offset, and local and UTC
  fields coincide.
- **Parsing a date from a string.** `new Date(string)` is a value the caller supplies:
  `DateValue.Text` carries the date a string parses to.
- **Years.** Only years between -271820 and 275759 are modelled (the `Date` range).
  Within that range, the MakeFullYear rule of the multi-argument `Date` constructor and
  `Date.UTC` (a year 0..99 means 1900 plus that year) is modelled.
- **`Number(...)` on strings.** The model reads trimmed digit-only strings, and the empty
  string as 0. Signs, decimals, exponents and hexadecimal give NaN, and non-integral
  numbers are not modelled: every number the code inspects is an id, a count, a clock
  reading or a time of day.
- **Form validity.** Angular's `FormGroup` validators (`required`, `min`, `maxLength`)
  are represented by a boolean parameter. A form is a record of its values.
  An error set by `setErrors` is a field of its component (the `required` name errors of
  the catalogue forms, `sameAsCurrent` of the password form), and the next call's validity
  is still the parameter.
- Dashboard.DashboardComponent.SavePatient: when the bag type is missing, the source sets
  the `required` error on the `bagTypeId` control and marks only that control touched;
  the model has no per-control state and marks the whole row form touched.
- UpdatePassword.UpdatePasswordComponent.Submit: after a new password equal to the current
  one, the source's form stays invalid until it is edited; the model keeps that error in a
  field, but the form's validity on the next call is the free `formValid` parameter, so
  the two are not tied together.
- **Navigation and the snackbar.** These are reported as results or left out. The
  snackbar's messages are not modelled except where a message is the result.
- **`Intl.DateTimeFormat` labels.** `formatRecordDate`, `formatDate`, `formatRange`,
  `formatShort`, `formatAs24HourLabel` and `formatBalanceDate24` are not modelled, and
  the slots carry no label. These are locale formatting. The one effect of the label that
  changes behaviour is modelled: formatting an invalid date throws a RangeError, so a slot
  is never composed on an invalid base (`PatientDetail.BuildSlotsFromDate`). Other label
  formatting on invalid dates, such as `formatBalanceDate24` in the view, is not modelled.
- **Password encryption.** The `JSEncrypt` encryption of passwords is a foreign library
  and is not modelled. The request carries the passwords as typed.
- **Token decoding.** `atob` and `JSON.parse` are a `Decoder` parameter, with `None`
  when decoding throws.
- **The confirm dialog.** Its answer is a parameter.
- **Timers and storage.** `setTimeout`, `clearTimeout` and `localStorage` are deadline
  fields and a `token` field. Time passing is `SessionTimer.SessionTimerService.FireDue`.
  The delay passed to `setTimeout` is converted to a signed 32-bit integer first, as
  browsers do, so delays above 2147483647 ms fire early (`SessionTimer.EffectiveDelay`).
- SessionTimer.SessionTimerService.FireDue: the warning is proved to come before the
  logout only when it was scheduled before it. Beyond the 32-bit delay limit the logout can
  fire first, and the warning then stays pending until `onExpire` stops the timer.
- **`MatTableDataSource` and `MatPaginator` wiring.** This means `dataSource.data`,
  `firstPage()`, and `ngAfterViewInit` (outside the vital-sign panel, which reads the
  paginator). This is display plumbing. The vital-sign panel's paginator is a field.
- **RxJS.** `takeUntil`, `finalize`, `ngOnDestroy` and the ordering of asynchronous
  replies are not modelled. Each reply is a separate method, and `finalize` is folded
  into it. Console logging and `getHostUrl` are left out.
- **Loading on open in the catalogue forms.** The `loading` flags of the medicine and
  vital-sign catalogue forms, and the dashboard's `bagTypesLoading`, are not modelled. Their `ngOnInit` loading is modelled only
  through the reply methods `MedicineForm.MedicineFormComponent.OnLoaded` and
  `VitalSignForm.VitalSignFormComponent.OnLoaded`.
- **`created.emit`.** The output event after a creation is not modelled.
- **Exceptions in the constructors.** `decodeToken` throwing inside the dashboard and
  vital-sign-form constructors is not modelled: the decoded claims are a parameter. The
  same goes for `decodedToken.jti` in `getPatients`.
- **Object spread in updates.** The object spread `{ ...old, ...updated }` in
  `applyPatientUpdate` and `applyMedicineUpdate` is modelled as replacement by the
  updated record, whose fields are all present.
- **Strict equality on objects.** `===` between two object values is taken to be false
  (two references are taken to be distinct objects).
- **The second slot lookup.** In `submitCreate` and `submitEdit`, the second lookup of
  the selected slot repeats the first. Its failure branch and its fallback cannot be
  taken, so they have no counterpart.
- PatientDetail.SortByTime: the sorted slots are proved sorted and a permutation. That
  the order of slots with equal times is kept (the sort is stable) is not proved.
- **Glue with no decision logic.** The login, registration and recovery pages, the
  buttons, the snackbar service, the routes, the providers and the HTTP services
  (beyond the requests they are handed) are not part of this model.
