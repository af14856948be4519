# Next.js starter with NextAuth: a Dafny model of its core logic

This project models the decision procedures, validators and data-shaping
code of a Next.js starter kit with a user dashboard and a hidden
administration console (`/admin1208`). It covers these parts:

- **Admin row insert** (`addModelRow`): the role check, the required-field
  check, the choice of insert columns and bound values, the text of the
  parameterised `INSERT … RETURNING *`, and the row appended to the
  table.
- **Add-row dialog** (`AddModelRowModal`): the editable columns, the
  `formData`/`errors` state, the client-side required check, the
  per-type conversion before submitting, and the reset rules. It is a
  class whose methods update that state.
- **Pagination bar** (`AdminPagination`): the three-page window, the
  ellipses, the first, last, previous and next buttons. It is a method
  that pushes items in a loop, proved against a reference layout.
- **Middleware**: the first-match redirect rules over the `user-app`
  cookie and the route matcher.
- **Breadcrumbs**, the record grid's cell formatter and table, and the
  admin navigation list with its sidebar rendering.
- **Profile validation and actions**: the zod schemas of the profile
  and password actions, `updateProfile`, `changePassword` and the
  password form.
- **User table**: sign-up, the session lookup and the administrator
  provisioning script, over a `UserStore` class whose ids and emails are
  unique.

JavaScript values are the `JsValue` datatype. A plain object is its
entries in insertion order, which is JavaScript's key order for keys that
are not array indices; `Object.keys`, `{...obj, [k]: v}` and lookups
follow it. Code the model cannot see becomes a
parameter or a symbolic value. This covers bcrypt's hash and compare,
`Number()`, `toLocaleString`, `JSON.stringify`, `toUpperCase`, the
storage engine's answer to a query, and an error thrown by the store.

Some behaviour of the code as written is proved rather than corrected:

- The insert never checks the model name against a list of tables
  (`AdminModels.QueryShape`).
- The middleware trusts the unsigned cookie
  (`Middleware.ForgedAdminCookieAdmitted`).
- A boolean radio stores `true`, which the conversion turns into `false`
  because it compares against the string `"true"`
  (`AddModelRowModal.BooleanTrueSubmittedAsFalse`).
- The dialog sends every column as `fields` but never fills `id`. So
  when `id` is NOT NULL, the server refuses every submission
  (`AddModelRowModal.NotNullIdAlwaysRejected`).

## Model

| member | source | states |
|---|---|---|
| AdminModels.RequiredFields | actions/admin-models.ts:28-30 | a name is required iff some field with that name has `is_nullable` "NO" |
| AdminModels.MissingFieldIsEarliest | actions/admin-models.ts:28-37 | for an admin, the error names the field with the least index in `fields` that is NOT NULL and whose value is null, undefined or '' |
| AdminModels.FirstBlank | actions/admin-models.ts:33-37 | finds the first required field, in field order, whose value is null, undefined or ''; none exists iff every required value is present |
| AdminModels.KeepInsertable | actions/admin-models.ts:40 | the kept keys keep their order and are exactly the keys whose value is neither null nor '' |
| AdminModels.PrepareInsert | actions/admin-models.ts:20-54 | non-admin: the admin error. First blank required field: its message. No insertable column: "Aucune donnée valide à insérer". Succeeds iff none of these; columns are the insertable keys in key order, values[i] is data[columns[i]], the placeholders are `$1, …, $n` |
| AdminModels.QueryShape | actions/admin-models.ts:50-54 | the query starts `INSERT INTO "<model>" (` with the model verbatim and ends with `RETURNING *` |
| AdminModels.PlaceholderCount | actions/admin-models.ts:49 | the placeholder text holds exactly one `$` per column |
| AdminModels.PlaceholderNumbers | actions/admin-models.ts:49 | placeholder i is `$` followed by the decimal digits of i + 1 |
| AdminModels.Project | actions/admin-models.ts:40-41 | the bound row has exactly the insert columns as keys, each with its submitted value |
| AdminModels.StoredRowKeepsInsertableValues | actions/admin-models.ts:40-41 | the stored row holds a key's submitted value iff that value is neither null nor ''; otherwise the key is absent |
| AdminModels.Database.AddModelRow | actions/admin-models.ts:20-66 | every refused or thrown call returns `success: false` with its message (or the fallback) and leaves all tables unchanged; an accepted call appends exactly one row to the named table and returns it |
| AddModelRowModal.EditableColumns | components/admin/AddModelRowModal.tsx:50-52 | the columns other than id, created_at and updated_at, in order |
| AddModelRowModal.CollectErrors | components/admin/AddModelRowModal.tsx:67-77 | the loop builds one "Ce champ est obligatoire" entry per required editable column whose value is undefined or "", and clears `isValid` iff there is one |
| AddModelRowModal.ProcessData | components/admin/AddModelRowModal.tsx:93-116 | every editable column's value is converted: "" or undefined to null, numeric types to `Number(value)`, boolean to `value === "true"`, others unchanged; other keys are untouched; the keys are exactly the form's keys and the editable column names |
| AddModelRowModal.ReplyToast | components/admin/AddModelRowModal.tsx:125-137 | the success toast appears iff the action answered `success: true`; a refusal with a non-empty error shows that error; no data or an empty error shows "Erreur lors de l'ajout"; a throw shows its message, or "Une erreur est survenue" when that is empty |
| AddModelRowModal.AddRowForm.constructor | components/admin/AddModelRowModal.tsx:42-45 | the dialog starts closed, with no data and no errors |
| AddModelRowModal.AddRowForm.HandleInputChange | components/admin/AddModelRowModal.tsx:54-65 | for an editable column: sets `formData[column]`, keeps every other key, and drops only `errors[column]`; every key of `formData` stays an editable column's name |
| AddModelRowModal.AddRowForm.ValidateForm | components/admin/AddModelRowModal.tsx:67-80 | `errors` becomes exactly the missing required columns; the result is true iff there are none |
| AddModelRowModal.AddRowForm.HandleSubmit | components/admin/AddModelRowModal.tsx:82-141 | the action is called iff validation passes, with the converted data, whose keys are exactly the editable column names; success closes the dialog and empties `formData`; failure keeps both |
| AddModelRowModal.AddRowForm.OnOpenChange | components/admin/AddModelRowModal.tsx:242-245 | closing the dialog this way clears `formData` and `errors`; opening keeps them |
| AddModelRowModal.AddRowForm.Cancel | components/admin/AddModelRowModal.tsx:290-297 | the cancel button only closes the dialog |
| AddModelRowModal.BooleanTrueSubmittedAsFalse | components/admin/AddModelRowModal.tsx:157-177 | a boolean column whose radio stored `true` is submitted as `false` |
| AddModelRowModal.EmptyFormMissesEveryRequired | components/admin/AddModelRowModal.tsx:143-146 | after a reset, validation reports every required editable column |
| AddModelRowModal.NotNullIdAlwaysRejected | components/admin/AddModelRowModal.tsx:118-122 | when `id` is NOT NULL, the server refuses the converted data of any form state the dialog can reach (every key an editable column, so never `id`) |
| AdminPagination.Window | components/ui/admin-pagination.tsx:44-54 | the window is current − 1..current + 1 for a page strictly inside the range, 1..min(3, total) on the first page and max(1, total − 2)..total on the last; for an in-range current page: 1 ≤ start ≤ current ≤ end ≤ total, at most 3 pages, exactly 3 when total > 2 |
| AdminPagination.PushMiddle | components/ui/admin-pagination.tsx:85-105 | the loop appends exactly the pages of the window other than the first and the last, in order |
| AdminPagination.RenderItems | components/ui/admin-pagination.tsx:57-135 | the pushed items equal the reference layout: first page, optional ellipsis, middle pages, optional ellipsis, last page |
| AdminPagination.LayoutProperties | components/ui/admin-pagination.tsx:57-135 | pages strictly increase from 1 to total; a button is marked current iff it shows the current page, so at most one is marked. For an in-range current page that button is shown, ellipses stand exactly at gaps, the leading ellipsis appears iff start > 2 and the trailing one iff end < total − 1 |
| AdminPagination.AdminPagination | components/ui/admin-pagination.tsx:20-186 | nothing is rendered iff total ≤ 1; otherwise the pinned window, items and current-page facts above hold; previous targets current − 1 iff current > 1, next targets current + 1 iff current < total |
| Middleware.CookieText | middleware.ts:6 | `JSON.parse` is never handed an empty text: a missing or empty cookie becomes `{}`, any other value is passed as is |
| Middleware.Prop | middleware.ts:13 | reading a field throws exactly on a null or undefined cookie value; a field not in the object is undefined |
| Middleware.Decide | middleware.ts:4-34 | parsing to `null` throws on every path. The admin area passes only a truthy id with role ADMIN; the dashboard only a truthy id. A signed-in ADMIN is passed only under /admin1208 and a USER only under /dashboard. Each rule's target: the admin area to /admin1208, the dashboard without an id to /auth/sign-in, a signed-in ADMIN outside /admin1208 to /admin1208, a signed-in USER outside both areas to /dashboard. `next()` iff the cookie is not null and no rule's guard holds |
| Middleware.SignedInUserKeepsDashboard | middleware.ts:12-33 | a signed-in USER is passed on every path under /dashboard |
| Middleware.ForgedAdminCookieAdmitted | middleware.ts:6-16 | any cookie `{"id": <truthy>, "role": "ADMIN"}` is admitted to the admin area |
| Middleware.AnonymousVisitor | middleware.ts:6-33 | a missing or empty cookie parses as `{}`, and then the admin area redirects to /admin1208, the dashboard to /auth/sign-in, other pages pass |
| Middleware.RedirectsSettle | middleware.ts:12-33 | following a redirect with the same cookie reaches `next()` in at most two hops, in one unless the user is a signed-in USER |
| Middleware.Handle | middleware.ts:4-46 | a request passes or gets the middleware's decision; every single-line path under /admin1208 or /dashboard gets the decision; every path beginning with "/" and an excluded source passes |
| Middleware.MatcherCoversProtectedAreas | middleware.ts:45 | every path starting with /admin1208 or /dashboard, without a line terminator, is matched |
| Middleware.MatcherSkipsExcluded | middleware.ts:45 | every path beginning with "/" followed by api, _next/static, _next/image, favicon.ico, sitemap.xml or robots.txt is skipped, whatever follows |
| Middleware.MatcherSkipsApiLookalike | middleware.ts:45 | "/apiary" is skipped, because the excluded sources are plain prefixes |
| Middleware.MatcherDotIsWildcard | middleware.ts:45 | "/favicon-ico" is skipped, because the dot is a regular-expression wildcard |
| Middleware.MatcherGuardsAdminArea | middleware.ts:45 | "/admin1208/users" is matched |
| Breadcrumbs.DropEmpty | components/sidebar/breadcrumb-sidebar.tsx:11 | keeps the non-empty parts, in order |
| Breadcrumbs.DropEmptyCounts | components/sidebar/breadcrumb-sidebar.tsx:11 | each non-empty part is kept as many times as it occurs, and no empty part is kept, so "/a/a" has two segments |
| Breadcrumbs.Segments | components/sidebar/breadcrumb-sidebar.tsx:11 | every segment is non-empty and slash-free |
| Breadcrumbs.Crumbs | components/sidebar/breadcrumb-sidebar.tsx:11-18 | one crumb per segment; crumb i is labelled from segment i and links to "/" plus segments 0..i joined by "/" |
| Breadcrumbs.HrefsNest | components/sidebar/breadcrumb-sidebar.tsx:13 | each link is the previous link, "/", and the next segment, so it is strictly longer |
| Breadcrumbs.HrefsGrow | components/sidebar/breadcrumb-sidebar.tsx:12-13 | a later crumb's link is strictly longer than an earlier one's |
| Breadcrumbs.HrefsDistinct | components/sidebar/breadcrumb-sidebar.tsx:12-15 | two different crumbs never have the same link, so the React keys are unique |
| Breadcrumbs.CanonicalPath | components/sidebar/breadcrumb-sidebar.tsx:11-13 | a path with a slash before each non-empty segment gives back exactly its segments, and its last crumb links to the path itself |
| Breadcrumbs.FollowingACrumb | components/sidebar/breadcrumb-sidebar.tsx:11-18 | the page crumb i links to shows exactly the first i + 1 crumbs |
| Breadcrumbs.SlashesOnlyShowNothing | components/sidebar/breadcrumb-sidebar.tsx:11 | "/" (and any all-slash path) shows no crumb |
| ModelDataView.FormatCellValue | components/admin/ModelDataView.tsx:125-147 | "-" iff null, undefined or the string "-"; dates and date-time strings take the date branch first and format that value; booleans show "Oui"/"Non"; objects and arrays are the JSON of that value; a converted number shows `String` of that value; other strings show as is; an integer shows `IntText(n)`, its decimal digits with a minus sign when negative |
| ModelDataView.IntText | components/admin/ModelDataView.tsx:147 | `String(n)` of an integer is its decimal digits, with a minus sign when negative |
| ModelDataView.Render | components/admin/ModelDataView.tsx:72-118 | the empty message iff there are no rows; otherwise one header (name, type) per column in order and one formatted cell per (row, column) |
| ModelDataView.ExportOfferedWithTable | components/admin/ModelDataView.tsx:65 | export is enabled iff no export runs and the table is shown |
| ModelDataView.DashIsAmbiguous | components/admin/ModelDataView.tsx:126 | a missing column, a SQL NULL and the string "-" show the same cell |
| ModelDataView.BooleanLooksLikeString | components/admin/ModelDataView.tsx:138-147 | a boolean shows the same text as the string "Oui" or "Non" |
| AdminNav.GetDbModels | actions/admin.ts:15-69 | a failure gives the generic error and no list; otherwise five entries in order Dashboard, Utilisateurs, Sessions, Comptes, Paramètres. The middle three carry the user, session and account counts; the first and last carry none; only Dashboard is "default" |
| AdminNav.HrefsDistinctUnderAdmin | actions/admin.ts:23-57 | every link starts with /admin1208 and no two entries share one |
| NavMainAdmin.GetIcon | components/sidebar-admin/nav-main-admin.tsx:26-41 | each of the five known names maps to its own icon; any other name maps to the database icon |
| NavMainAdmin.RenderNav | components/sidebar-admin/nav-main-admin.tsx:45-58 | one entry per item in order, keyed by href; an entry is "default" when its href is the pathname and keeps its own variant otherwise; the badge shows iff a count is present |
| NavMainAdmin.DashboardAlwaysHighlighted | components/sidebar-admin/nav-main-admin.tsx:46-50 | on the server's list Dashboard is always "default", and another entry is "default" iff it is the current page |
| NavMainAdmin.ServerIconsKnown | components/sidebar-admin/nav-main-admin.tsx:26-41 | no entry of the server's list falls back to the database icon |
| NavMainAdmin.ZeroCountShowsBadge | components/sidebar-admin/nav-main-admin.tsx:54-58 | a count of 0 still shows its badge |
| ProfileValidation.LengthIssues | validations/profile.ts:4-5 | no issue iff the length is within bounds; the too-short issue iff below the minimum, the too-long issue iff above the maximum |
| ProfileValidation.ValidateProfile | validations/profile.ts:3-6 | valid iff both names have 1 to 32 characters; an empty first or last name is reported with its French message |
| ProfileValidation.ValidateChangePassword | actions/profile.ts:48-55 | valid iff the current password is non-empty, the new one has 8 to 32 characters, the confirmation is non-empty, and it equals the new one; the mismatch is reported on confirmPassword iff they differ |
| ProfileValidation.ChangePasswordFieldIssues | actions/profile.ts:49-51 | each length rule of the password schema is reported iff it is broken |
| ProfileValidation.ShortAndUnconfirmedReportedTwice | actions/profile.ts:50-55 | the refinement runs even after a length failure |
| ProfileActions.Renamed | actions/profile.ts:16-21 | only the user's first and last names change |
| ProfileActions.UpdateProfile | actions/profile.ts:8-45 | invalid input changes nothing; an unknown id or a store failure gives the server error and changes nothing; otherwise only that user's names change, and the reply carries id, email and names, never the password |
| ProfileActions.ChangePassword | actions/profile.ts:58-104 | invalid input, an unknown user ("Utilisateur non trouvé") or a failed compare ("Le mot de passe actuel est incorrect") change nothing; success stores `hash(newPassword)` for that user only |
| ChangePasswordForm.PasswordForm.HandleSubmit | components/ChangePassword.tsx:21-61 | the same-password check comes before the mismatch check; the action is called iff both pass, with the new password as confirmation; `isLoading` is false on every exit |
| ChangePasswordForm.ReplyToast | components/ChangePassword.tsx:48-57 | success iff the answer's data says success; otherwise the server error's message if non-empty, else the generic message; a thrown error asks to retry |
| ChangePasswordForm.SentInputPassesRefinement | components/ChangePassword.tsx:42-46 | what the form sends never fails the server's confirmation rule; it is valid iff the current password is non-empty and the new one has 8 to 32 characters |
| ChangePasswordForm.RefusalShowsGenericMessage | components/ChangePassword.tsx:48-55 | an unknown user or a wrong current password shows the generic message, not the server's reason |
| UserTable.IndexOfEmail | actions/auth.ts:22-24 | finds the first user with the email, none iff no user has it |
| UserTable.IndexOfId | actions/profile.ts:64-70 | finds a user with the id, none iff no user has it |
| UserTable.FreshId | actions/auth.ts:37-44 | the new row's id differs from every existing id |
| AuthActions.RegisterUser | actions/auth.ts:15-66 | a taken email fails with "Cet email est déjà utilisé" and changes nothing; a thrown error fails with the ZodError or generic message and changes nothing; otherwise exactly one user is appended with a new id, the email, the hashed password and the names, and its id is returned |
| AuthActions.RegisteredEmailTaken | actions/auth.ts:22-44 | after a registration the email is taken, so registering it again fails |
| AuthActions.GetUserInfo | actions/auth.ts:68-87 | null iff there is no session or no user with its email; otherwise the user's id, email, names and role, never the password |
| CreateAdmin.ProvisionAdmin | scripts/create-admin.ts:7-54 | the table becomes `Provisioned(old table, hash("Admin123!"))` |
| CreateAdmin.ProvisionedSingleAdmin | scripts/create-admin.ts:16-47 | afterwards exactly one account has admin@example.com, and it has role ADMIN |
| CreateAdmin.ProvisionedTouchesOnlyAdmin | scripts/create-admin.ts:20-47 | other rows are unchanged; the admin row changes at most its role, to ADMIN; at most one row is added |
| CreateAdmin.ProvisionedIdempotent | scripts/create-admin.ts:16-47 | running the script twice gives the same table as running it once |
| CreateAdmin.ProvisionedKeepsTableValid | scripts/create-admin.ts:36-47 | ids and emails stay unique |

## Left out

- The React rendering, the dialog markup and the users-model branch of the add-row dialog, which embeds the sign-up form, are left out: they are presentation.
- Asynchronous React state updates are applied at once. Each handler is one atomic step on the component's state.
- The action wrapper that checks the session, the role gate of `getDbModels` and the schema parse of `addModelRow` is left out. `ctx.role`, `ctx.userId` and the session email are inputs. The profile actions return their schema issues as a result of their own.
- The storage engine is a parameter that accepts the insert or throws; SQL semantics, type and constraint errors are its business. An accepted insert returns the bound row: column defaults and generated values that `RETURNING *` would add are not modelled.
- JavaScript numbers are integers here. `Number(value)` is kept symbolic, so NaN and floating point are not modelled.
- Object key order: JavaScript lists integer-like keys ("0", "42") first, in ascending order; the model keeps every key in insertion order.
- ProfileValidation: zod 3's behaviour is assumed. A failed `min` or `max` check does not abort the object parse, so `.refine` still runs and adds its issue.
- String lengths count Unicode characters, not UTF-16 code units as JavaScript and zod do.
- `toUpperCase`, `toLocaleString` and `JSON.stringify` are uninterpreted. The breadcrumb label takes the case mapping as a parameter.
- The route matcher is modelled on the pathname as given. How the framework compiles it (case sensitivity, trailing slashes, locale and base-path prefixes) is left out.
- Middleware.Decide: a cookie that `JSON.parse` rejects throws before the rules run; that case is left out. The cookie's fields are assumed to be JSON values.
- AuthActions.RegisterUser: an error thrown by the initial lookup is not modelled; only failures of hashing or of the insert are.
- AuthActions.GetUserInfo: a session without an email is not modelled.
- ProfileActions.ChangePassword: errors thrown by the store or by bcrypt propagate to the wrapper and are not modelled.
- bcrypt hashing is salted, so two hashes of the same password differ; the model uses one deterministic `hash` function.
- CreateAdmin.ProvisionAdmin: a failing lookup, update or insert is caught and only logged by the script; this path and the log lines are not modelled.
- The role the table gives a new user is assumed to be USER; the schema that sets the default is not part of this model.
- The export button's timer and `createPageUrl`'s query-string building are left out. The pagination targets are page numbers.
- `logout`, the NextAuth configuration, the auth provider and store, and the other pages and components are not part of this model.
