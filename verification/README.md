# Aranya Resort booking core in Dafny

This project models the decision and transformation rules of the Aranya Resort web application. The application is a React/TypeScript front end over a Supabase database. Each rule lives inside a React hook or page. Here it is lifted out as a pure function over immutable values, and the database and the browser become inputs and outputs.

- `booking_types.dfy` (`BookingTypes`) holds the booking vocabulary. It has the application's five statuses, the database's wider `booking_status` enumeration, meal plans, the opaque price breakdown and the booking form.
- `create_booking.dfy` (`CreateBooking`) models the booking-creation mutation:
  - the initial status;
  - the `TEMP` + base-36 reference;
  - the normalised insert payload;
  - one blocked-date row per night for non-enquiries;
  - the mapping of the returned row.

  The response to the insert is a parameter. The writes the mutation issues are part of its result.
- Supporting modules:
  - `calendar.dfy` (`Calendar`) provides days as integers and the `YYYY-MM-DD` rendering and parsing.
  - `text.dfy` (`Text`) provides `trim`, ASCII case mapping, `startsWith`, `includes` and the `s || null` / `s || ""` idioms.
  - `seqs.dfy` (`Seqs`) provides `Array.prototype.filter` over sequences, with subsequence, idempotence and partition facts.
- `slug.dfy` (`Slug`) holds `generateSlug` and the rule that keeps a slug in step with the name.
- The admin dialogs:
  - `admin_dialog.dfy` (`AdminDialog`) is the open/editing/form state shared by every admin dialog, and the insert-versus-update choice.
  - `packages_admin.dfy`, `rooms_admin.dfy` and `pricing_admin.dfy` cover the packages, room categories, seasons, taxes and meal plans. For each they model the form defaults, edit prefill, save payload, the row an update produces, status toggles and deletes.
- `auth.dfy` (`Auth`) models the authentication hook:
  - role predicates;
  - the state reset on each session change;
  - the deferred role lookup;
  - sign-out with its fallback chain and local-storage clean-up;
  - event traces.
- `admin_sidebar.dfy` (`AdminSidebar`) models the navigation table, active-item matching and the links rendered.
- `status_badge.dfy` (`StatusBadge`) models the status badge's label lookup with its fallback.
- The public and admin list views:
  - `enquiries.dfy` (`Enquiries`) is the enquiries list.
  - `gallery.dfy` (`Gallery`) is the gallery category filter.
  - `packages_catalog.dfy` (`PackagesCatalog`) is the featured and non-featured package sections.

Conventions:
- A calendar day is a natural number: days since 0000-01-01 in the proleptic Gregorian calendar.
- Amounts are `real`.
- The clock reading for the temporary reference is a natural-number parameter.
- Each Supabase call is represented by its outcome, given as a parameter.

## Model

| member | source | states |
|---|---|---|
| `BookingTypes.SharedStatusNames` | src/integrations/supabase/types.ts:853-861 | An application status and a database status have the same wire name exactly for `new_enquiry` and `cancelled`. So `quote_sent`, which the booking hook writes, is not an application status. |
| `CreateBooking.InitialStatus` | src/hooks/useCreateBooking.ts:24 | The status is `new_enquiry` if and only if the booking is an enquiry, and `quote_sent` if and only if it is not. |
| `CreateBooking.TempReference` | src/hooks/useCreateBooking.ts:12-14 | The reference starts with `TEMP` and is followed by at least one character. Every later character is 0-9 or A-Z. |
| `CreateBooking.TempReferenceDecodes` | src/hooks/useCreateBooking.ts:12-14 | Reading the characters after `TEMP` as an upper-case base-36 number gives back the clock reading. |
| `CreateBooking.TempReferenceInjective` | src/hooks/useCreateBooking.ts:12-14 | Two clock readings give the same reference only if they are equal. |
| `CreateBooking.NormalizeEmail` | src/hooks/useCreateBooking.ts:35 | The stored e-mail is the trimmed input lower-cased: character i is character i of the trimmed input, lower-cased. So it has no upper-case ASCII letter and no whitespace at either end. |
| `CreateBooking.NormalizeEmailIdempotent` | src/hooks/useCreateBooking.ts:35 | Normalising an already normalised e-mail changes nothing. |
| `CreateBooking.TrimmedOrNull` | src/hooks/useCreateBooking.ts:37-38 | City and special requests become null exactly when the input is all whitespace. Otherwise they hold the trimmed, non-empty text. |
| `CreateBooking.OrNull` | src/hooks/useCreateBooking.ts:40 | The package id becomes null for both null and `""`. Any other id is kept. |
| `CreateBooking.BuildInsert` | src/hooks/useCreateBooking.ts:41-42 | No payload can be built exactly when a date is unset, because the non-null assertion then throws. |
| `CreateBooking.BuildInsertFields` | src/hooks/useCreateBooking.ts:31-56 | The reference, status and enquiry flag are set as above. Name and phone are trimmed, the e-mail is normalised, and blank city, requests and package become null. The user id is null for an anonymous or id-less user. The stay is as entered. Nights and the six totals are copied from the quote, and the discount is 0. |
| `CreateBooking.BlockedRows` | src/hooks/useCreateBooking.ts:65-77 | The reference list of blocked-date rows: one per night of the stay, each for the form's category, 1 room, reason "Booking" and the stored booking's id, on a day from check-in up to the day before check-out. |
| `CreateBooking.CollectBlockedRows` | src/hooks/useCreateBooking.ts:65-77 | The date loop yields one row per night. Row i blocks check-in + i and carries the form's category, 1 room, reason "Booking" and the stored booking's id. The result is the reference list `BlockedRows`. |
| `CreateBooking.BlockedRowsShape` | src/hooks/useCreateBooking.ts:69-77 | There are check-out − check-in rows, and none when check-out is not later. Row i blocks day check-in + i. |
| `CreateBooking.BlockedRowsCoverStay` | src/hooks/useCreateBooking.ts:69 | A day is blocked if and only if check-in ≤ day < check-out, so the check-out day stays free. |
| `CreateBooking.BlockedRowsConsecutive` | src/hooks/useCreateBooking.ts:69 | The blocked days are consecutive and strictly increasing. They start at check-in and end the day before check-out. |
| `CreateBooking.BlockedRowsRenderDistinct` | src/hooks/useCreateBooking.ts:72 | The rows' `YYYY-MM-DD` date strings are pairwise distinct (four-digit years). |
| `CreateBooking.NumberOrZero` | src/hooks/useCreateBooking.ts:101-105 | A null or absent numeric column becomes 0. A present value is kept. |
| `CreateBooking.MapRow` | src/hooks/useCreateBooking.ts:85-116 | The returned booking copies every column of the row. The exception is the five money columns, which default to 0. |
| `CreateBooking.MapRowKeepsPresentNumbers` | src/hooks/useCreateBooking.ts:101-105 | When all money columns are present, the mapping loses nothing: the row can be rebuilt from the booking. |
| `CreateBooking.Create` | src/hooks/useCreateBooking.ts:29-116 | A missing date fails before any write. Otherwise the booking insert is the first write. An insert error or an empty answer aborts with that error and no date blocking. A second write, the blocked-date rows, happens exactly for a stored non-enquiry with at least one night. Success returns the mapped row. |
| `CreateBooking.EnquiryBlocksNothing` | src/hooks/useCreateBooking.ts:64 | An enquiry writes only the booking, never a blocked date, whatever the dates and the response. |
| `CreateBooking.ConfirmedBlocksEveryNight` | src/hooks/useCreateBooking.ts:64-81 | A stored non-enquiry with check-in < check-out writes exactly one blocked row per night. Each row is for the right category and day, with 1 room, "Booking" and the stored booking's id. |
| `Calendar.IsoDate` | src/hooks/useCreateBooking.ts:72 | `toISOString().split('T')[0]` of a day in a four-digit year has the `YYYY-MM-DD` shape. |
| `Calendar.IsoDateInjective` | src/hooks/useCreateBooking.ts:72 | Two days of four-digit years that render to the same date string are the same day. |
| `Calendar.ParseRendered` | src/pages/admin/PricingPage.tsx:294-295 | Parsing a rendered date gives the day back. |
| `Calendar.RenderParsed` | src/pages/admin/PricingPage.tsx:156-157 | Rendering a parsed date string gives the string back. |
| `Text.Trim` | src/hooks/useCreateBooking.ts:34 | A trimmed string neither starts nor ends with whitespace. |
| `Text.TrimRemovesOnlyEdgeWhitespace` | src/hooks/useCreateBooking.ts:34-38 | The input is whitespace, then the trimmed text, then whitespace: nothing inside is touched. |
| `Text.TrimIdempotent` | src/hooks/useCreateBooking.ts:34-38 | Trimming twice is trimming once. |
| `Text.ToLower` | src/hooks/useCreateBooking.ts:35 | Lower-casing maps each character on its own, keeping the length: an upper-case ASCII letter becomes its lower-case letter and every other character is unchanged. No upper-case ASCII letter is left, and whitespace stays where it was. |
| `Text.ToUpper` | src/pages/admin/PricingPage.tsx:231 | Upper-casing maps each character on its own, keeping the length: a lower-case ASCII letter becomes its upper-case letter and every other character is unchanged. No lower-case ASCII letter is left. |
| `Text.ToUpperIdempotent` | src/pages/admin/PricingPage.tsx:573 | Upper-casing an already upper-cased code changes nothing. |
| `Text.EmptyToNull` | src/pages/admin/PricingPage.tsx:233 | Turning an empty string into null (`s` or null) gives null exactly for `""` and otherwise the string itself. |
| `Text.NullToEmpty` | src/pages/admin/PricingPage.tsx:317 | Defaulting null to the empty string turns null into `""` and keeps any string. |
| `Text.EmptyNullRoundTrip` | src/pages/admin/PricingPage.tsx:233 | Every form string survives being saved with empty-to-null and prefilled back with null-to-empty. |
| `Text.NullEmptyRoundTrip` | src/pages/admin/PricingPage.tsx:317 | A stored value survives prefill then save if and only if it is not the empty string. Null does survive. |
| `Text.StartsWith` | src/hooks/useAuth.ts:124 | `startsWith` holds exactly when the prefix is no longer than the string and agrees with it character by character. |
| `Text.Includes` | src/hooks/useAuth.ts:124 | `includes` holds whenever the string starts with the substring, and only when the substring is no longer than the string. |
| `Text.IncludesAt` | src/hooks/useAuth.ts:124 | `includes` finds a substring that occurs at any index. |
| `Text.IncludesWitness` | src/hooks/useAuth.ts:124 | Conversely, when `includes` holds, the substring occurs at some index, which the lemma returns. |
| `Text.IncludesIff` | src/hooks/useAuth.ts:124 | `includes` holds if and only if the substring occurs at some index. |
| `Slug.GenerateSlug` | src/pages/admin/PackagesPage.tsx:172-174 | Every slug uses only a-z, 0-9 and `-`. It never starts or ends with `-` and never contains `--`. |
| `Slug.Collapse` | src/pages/admin/PackagesPage.tsx:173 | The result uses only a-z, 0-9 and `-`, has no doubled dash, is empty exactly when the input is, and starts with a dash exactly when the input starts with a character other than a-z and 0-9. |
| `Slug.CollapseAppend` | src/pages/admin/PackagesPage.tsx:173 | Where a kept character meets one that is not, the two pieces collapse independently and their results are joined. |
| `Slug.CollapseSeparator` | src/pages/admin/PackagesPage.tsx:173 | A run of separators between a part ending in a letter or digit and a part that is empty or starts with one becomes exactly one dash between the two collapsed parts. |
| `Slug.SlugJoinsWords` | src/pages/admin/PackagesPage.tsx:172-174 | Two names that slug to themselves once lower-cased, joined by any run of separators, slug to the two lower-cased names joined by a single dash. |
| `Slug.ForestVillaSlug` | src/pages/admin/RoomsPage.tsx:155-157 | "Forest Villa" slugs to "forest-villa". |
| `Slug.SlugFixesSlugs` | src/pages/admin/PackagesPage.tsx:173 | A string that already is a slug is left unchanged. |
| `Slug.GenerateSlugIdempotent` | src/pages/admin/PackagesPage.tsx:173 | Slugging a slug gives the same slug. |
| `Slug.SlugKeepsLetters` | src/pages/admin/PackagesPage.tsx:173 | The slug keeps every lower-cased letter and digit of the name, in order, and no other letter or digit. |
| `Slug.FollowName` | src/pages/admin/PackagesPage.tsx:207-212 | While editing, the slug is kept. While creating, it is regenerated from the new name and is a valid slug. |
| `AdminDialog.StartEdit` | src/pages/admin/PricingPage.tsx:289-300 | Editing opens the dialog on that row with the form prefilled from it. |
| `AdminDialog.OpenChange` | src/pages/admin/PricingPage.tsx:340-343 | Closing through `onOpenChange` (Escape, an outside click, the close icon) forgets the edited row and restores the default form. Opening, which the Add trigger does, changes nothing else. |
| `AdminDialog.Cancel` | src/pages/admin/PricingPage.tsx:406 | The Cancel button as written only closes the dialog. The edited row and the form stay as they were. |
| `AdminDialog.GuardedCancel` | src/pages/admin/PricingPage.tsx:340-343 | The corrected Cancel closes like the dialog's own controls: no edited row, the default form. |
| `AdminDialog.SaveSucceeded` | src/pages/admin/PricingPage.tsx:169-175 | A successful save closes the dialog, forgets the edited row and restores the default form. |
| `AdminDialog.ChooseSave` | src/pages/admin/PricingPage.tsx:161-167 | A save is an update of that id exactly when a non-empty id is present, and an insert otherwise. It is never both, and the payload is the same either way. |
| `AdminDialog.EditedId` | src/pages/admin/PricingPage.tsx:354 | The id sent with a save is that of the row being edited, and absent when creating. |
| `AdminDialog.ClosingReturnsToCreate` | src/pages/admin/PricingPage.tsx:340-343 | After a close through `onOpenChange`, a close by the corrected Cancel, or a successful save, the next save is an insert. |
| `AdminDialog.CancelThenAddUpdatesEditedRow` | src/pages/admin/PackagesPage.tsx:183-195 | As written, Edit, then Cancel, then Add reopens the dialog on the edited row's form, and saving updates that row. |
| `AdminDialog.GuardedCancelThenAddCreates` | src/pages/admin/PackagesPage.tsx:183-195 | With the corrected Cancel, the same sequence opens the default form, and saving inserts. |
| `PackagesAdmin.DefaultForm` | src/pages/admin/PackagesPage.tsx:78-90 | The new-package form is a fixed-price 2-night weekend package at 10000, active and not featured. |
| `PackagesAdmin.SavePayload` | src/pages/admin/PackagesPage.tsx:112-116 | Exactly one of the fixed and per-night prices is sent, chosen by the fixed-price flag. Every other field is the form's. |
| `PackagesAdmin.Prefill` | src/pages/admin/PackagesPage.tsx:149-165 | Editing copies every field, including a stored description and short description. The exceptions: a null description or short description becomes `""`, and a null price becomes 0. |
| `PackagesAdmin.Submit` | src/pages/admin/PackagesPage.tsx:167-170 | The save updates the edited package when there is one and inserts otherwise. The payload is built from the form and the edited id. |
| `PackagesAdmin.ApplyUpdate` | src/pages/admin/PackagesPage.tsx:118-120 | An update writes every payload column into the row and leaves its id and sort order alone. |
| `PackagesAdmin.EditSaveRoundTrip` | src/pages/admin/PackagesPage.tsx:149-165 | Saving an unchanged edit form leaves the row as it was if and only if the row is normalised. Normalised means: descriptions present, and exactly the price its flag selects present. |
| `PackagesAdmin.SavedRowsAreNormalized` | src/pages/admin/PackagesPage.tsx:112-120 | Every row written by a save is normalised. |
| `PackagesAdmin.OnNameChange` | src/pages/admin/PackagesPage.tsx:207-212 | A name edit sets the name. The slug follows the name only when creating, and nothing else changes. |
| `PackagesAdmin.NameChangeSettles` | src/pages/admin/PackagesPage.tsx:207-212 | Repeating the same name edit changes nothing more. |
| `PackagesAdmin.ToggleCommand` | src/pages/admin/PackagesPage.tsx:426 | The toggle button sends the package's id and the opposite of its active flag. |
| `PackagesAdmin.ApplyToggle` | src/pages/admin/PackagesPage.tsx:138-142 | A toggle sets only the active flag, and only on the package with that id. |
| `PackagesAdmin.ToggleTwice` | src/pages/admin/PackagesPage.tsx:426 | Toggling twice restores the package. |
| `RoomsAdmin.DefaultForm` | src/pages/admin/RoomsPage.tsx:59-71 | The new-room form is 2 adults, 1 child, occupancy 2, 5000/1000/500, 1 room, active. |
| `RoomsAdmin.Prefill` | src/pages/admin/RoomsPage.tsx:132-148 | Editing copies every field. The exception is a null (or empty) description, which becomes `""`. |
| `RoomsAdmin.Submit` | src/pages/admin/RoomsPage.tsx:150-153 | The form is sent unchanged: as an update with its id when editing, and as an insert without an id otherwise. |
| `RoomsAdmin.ApplyUpdate` | src/pages/admin/RoomsPage.tsx:93-98 | An update keeps the id and display order. Prefilling the updated row gives back the submitted form. |
| `RoomsAdmin.EditSaveRoundTrip` | src/pages/admin/RoomsPage.tsx:132-148 | Saving an unchanged edit form leaves the room as it was if and only if its description is not null. |
| `RoomsAdmin.PrefillSaveStable` | src/pages/admin/RoomsPage.tsx:93-98 | Any saved form is what the next edit dialog shows. |
| `RoomsAdmin.OnNameChange` | src/pages/admin/RoomsPage.tsx:190-196 | A name edit sets the name. The slug follows the name only when creating, and nothing else changes. |
| `RoomsAdmin.ToggleCommand` | src/pages/admin/RoomsPage.tsx:390-393 | The toggle button sends the room's id and the opposite of its active flag. |
| `RoomsAdmin.ApplyToggle` | src/pages/admin/RoomsPage.tsx:118-125 | A toggle keeps the list's length. It changes only the active flag, and only of rooms with that id. |
| `RoomsAdmin.ToggleTwice` | src/pages/admin/RoomsPage.tsx:390-393 | With distinct ids, toggling a room twice restores the list. |
| `RoomsAdmin.ResetAfterSaveOrClose` | src/pages/admin/RoomsPage.tsx:166-172 | A successful save or a close through `onOpenChange` leaves no edited room and the default form. The Cancel button as written keeps the edited room and its form. |
| `PricingAdmin.SeasonDefault` | src/pages/admin/PricingPage.tsx:267-276 | The season reset gives type regular, no dates, multiplier 1.0 and active. |
| `PricingAdmin.RenderFormDate` | src/pages/admin/PricingPage.tsx:156-157 | An unset date is omitted and a day is rendered as `YYYY-MM-DD`. An invalid date fails the save. |
| `PricingAdmin.SeasonPayloadOf` | src/pages/admin/PricingPage.tsx:153-160 | The save fails exactly when a date is invalid. Otherwise the payload copies name, type, multiplier and flag, and renders the dates. |
| `PricingAdmin.ParseStoredDate` | src/pages/admin/PricingPage.tsx:294-295 | A stored date becomes a day exactly when it parses, and that day renders back to the stored text. Anything else is an invalid date. |
| `PricingAdmin.SeasonPrefill` | src/pages/admin/PricingPage.tsx:289-300 | Editing copies name, type, multiplier and flag, and parses both dates. |
| `PricingAdmin.ApplySeasonUpdate` | src/pages/admin/PricingPage.tsx:161-162 | An update writes the payload's columns. A date the payload omits keeps its stored value. |
| `PricingAdmin.SeasonEditKeepsFields` | src/pages/admin/PricingPage.tsx:289-300 | Edit then save preserves the season's name, type, multiplier and active flag. |
| `PricingAdmin.SeasonEditSaveRoundTrip` | src/pages/admin/PricingPage.tsx:289-300 | Edit then save succeeds exactly when both stored dates parse, and then the season is unchanged. |
| `PricingAdmin.SeasonSubmit` | src/pages/admin/PricingPage.tsx:354 | The season save fails exactly when its payload fails. Otherwise it is an update of the edited season or an insert. |
| `PricingAdmin.TaxDefault` | src/pages/admin/PricingPage.tsx:467 | The tax reset gives 18 percent, active. |
| `PricingAdmin.TaxPrefill` | src/pages/admin/PricingPage.tsx:302-310 | Editing copies name, percentage and flag. |
| `PricingAdmin.TaxPayloadOf` | src/pages/admin/PricingPage.tsx:193-197 | The tax payload copies name, percentage and flag. |
| `PricingAdmin.ApplyTaxUpdate` | src/pages/admin/PricingPage.tsx:198-199 | An update keeps the id, and the updated row prefills to the saved payload. |
| `PricingAdmin.TaxEditSaveRoundTrip` | src/pages/admin/PricingPage.tsx:302-310 | Edit then save leaves every tax row unchanged. |
| `PricingAdmin.TaxSubmit` | src/pages/admin/PricingPage.tsx:479 | The tax save is an update of the edited row or an insert, with the form's payload. |
| `PricingAdmin.MealPlanDefault` | src/pages/admin/PricingPage.tsx:278-287 | The meal-plan reset gives empty texts, zero prices and active. |
| `PricingAdmin.OnCodeInput` | src/pages/admin/PricingPage.tsx:573 | Typing a code stores the typed text upper-cased, character by character, so it has no lower-case letter. Nothing else in the form changes. |
| `PricingAdmin.MealPlanPayloadOf` | src/pages/admin/PricingPage.tsx:230-237 | The code sent is the form's code upper-cased, character by character, so it has no lower-case letter. An empty description is sent as null, and other fields are copied. |
| `PricingAdmin.TypedCodeSentAsShown` | src/pages/admin/PricingPage.tsx:573 | The code the payload sends is the code the field shows, since upper-casing twice is upper-casing once. |
| `PricingAdmin.MealPlanPrefill` | src/pages/admin/PricingPage.tsx:312-323 | Editing copies every field. A null (or empty) description becomes `""`. |
| `PricingAdmin.ApplyMealPlanUpdate` | src/pages/admin/PricingPage.tsx:238-239 | An update writes every payload column and keeps the id. |
| `PricingAdmin.MealPlanDescriptionRoundTrip` | src/pages/admin/PricingPage.tsx:317 | A description that is null or non-empty survives prefill then save. In particular null becomes `""` and then null again. |
| `PricingAdmin.MealPlanEditSaveRoundTrip` | src/pages/admin/PricingPage.tsx:312-323 | Edit then save leaves a meal plan unchanged if and only if its code has no lower-case letter and its description is not `""`. |
| `PricingAdmin.MealPlanSubmit` | src/pages/admin/PricingPage.tsx:567 | The meal-plan save is an update of the edited row or an insert, with the form's payload. |
| `PricingAdmin.ApplyDelete` | src/pages/admin/PricingPage.tsx:179-188 | After a delete, no row with that id remains. Every other row remains. |
| `Auth.InitialState` | src/hooks/useAuth.ts:8-11 | The hook starts loading, with no session, user or role. |
| `Auth.RolePredicates` | src/hooks/useAuth.ts:146-147 | Super admin implies admin, and staff is exactly admin-but-not-super. A null or guest role gives neither right. |
| `Auth.LookupId` | src/hooks/useAuth.ts:35-36 | A role lookup is scheduled exactly when the session has a user with a non-empty id. |
| `Auth.ApplySessionSync` | src/hooks/useAuth.ts:29-36 | Every session change sets the session and its user (or null) and resets the role to null. |
| `Auth.OnSession` | src/hooks/useAuth.ts:58-62 | A session event applies the reset and ends loading unless the hook is unmounted. |
| `Auth.Unmount` | src/hooks/useAuth.ts:71-74 | Unmounting sets the cancelled flag and nothing else. |
| `Auth.LookupToast` | src/hooks/useAuth.ts:49 | A failed lookup's toast is its message, or a fixed text when the message is empty. |
| `Auth.RoleResult` | src/hooks/useAuth.ts:39-51 | As written: once cancelled, a result changes nothing. Otherwise the role becomes the result, or null on failure. A failure always raises a toast. |
| `Auth.RoleResultFor` | src/hooks/useAuth.ts:38-52 | Corrected: a result is applied only while the hook is mounted and holds the user it was fetched for. The toast is unchanged. |
| `Auth.TokenKeys` | src/hooks/useAuth.ts:122-128 | The keys removed are exactly the stored keys that start with `sb-` and contain `auth-token`. None are removed when storage cannot be read. |
| `Auth.SignOutWarning` | src/hooks/useAuth.ts:136-143 | A warning is raised exactly when an error was recorded. It shows the error's message, or a fixed text. |
| `Auth.SignOut` | src/hooks/useAuth.ts:101-144 | The global revoke comes first. A local sign-out follows exactly when it failed, and a second one when the first local call after an error result throws. The last error is kept and the token keys are removed. The state ends with no session, user or role, not loading. |
| `Auth.SignOutClearsRights` | src/hooks/useAuth.ts:130-133 | Whatever failed, sign-out leaves no user and no admin rights. |
| `Auth.LocalFallbackIffRevokeFailed` | src/hooks/useAuth.ts:106-119 | A local sign-out is attempted if and only if the global revoke failed or threw. |
| `Auth.Step` | src/hooks/useAuth.ts:29-74 | As written: a session event or a sign-out leaves no role, and a sign-out leaves no user. |
| `Auth.GuardedStep` | src/hooks/useAuth.ts:38-52 | Corrected: a role result for anyone but the current user is ignored. Every other event behaves as written. |
| `Auth.StaleRoleAfterSignOut` | src/hooks/useAuth.ts:38-52 | As written, a super-admin role fetched before a sign-out lands after it. The result is a signed-out state with super-admin rights. |
| `Auth.StaleRoleAcrossUsers` | src/hooks/useAuth.ts:38-52 | As written, the first user's late role lands on the second user. |
| `Auth.GuardedRoleBelongsToUser` | src/hooks/useAuth.ts:38-52 | With the corrected callback, every event sequence keeps "a role only with a user". |
| `Auth.GuardedIgnoresOtherUsers` | src/hooks/useAuth.ts:38-52 | With the corrected callback, another user's role result leaves the state unchanged. |
| `AdminSidebar.NavItems` | src/components/admin/AdminSidebar.tsx:26-73 | There are nine items, and the first is the exact Dashboard link to `/admin`. |
| `AdminSidebar.ExactImpliesPrefix` | src/components/admin/AdminSidebar.tsx:78-83 | An exact-active item is also prefix-active. |
| `AdminSidebar.PrefixIgnoresSegments` | src/components/admin/AdminSidebar.tsx:82 | Prefix matching has no segment boundary: `/admin/roomsfoo` activates `/admin/rooms`. |
| `AdminSidebar.NavTableShape` | src/components/admin/AdminSidebar.tsx:26-73 | Only Dashboard is exact. Every other href extends `/admin/`, and none is a prefix of another. |
| `AdminSidebar.IsActive` | src/components/admin/AdminSidebar.tsx:77-83 | An exact item is active exactly on its own path. Any other item is active exactly when its href is no longer than the path and agrees with the path's first characters. |
| `AdminSidebar.AtMostOneActive` | src/components/admin/AdminSidebar.tsx:78-83 | For any path, at most one item of the navigation table is active. |
| `AdminSidebar.Links` | src/components/admin/AdminSidebar.tsx:143-157 | Every nav item is rendered, in order. The Staff Management link appears if and only if the user is a super admin. Titles show if and only if the sidebar is expanded. |
| `StatusBadge.ParseStatus` | src/components/admin/BookingStatusBadge.tsx:34 | A status string finds an entry exactly when it is one of the five application names. |
| `StatusBadge.ConfigOf` | src/components/admin/BookingStatusBadge.tsx:10-31 | Each status's entry carries a label that no other status has. |
| `StatusBadge.BadgeConfig` | src/components/admin/BookingStatusBadge.tsx:34 | A known status shows its own entry. Any other string falls back to the `new_enquiry` entry. |
| `StatusBadge.ParseStatusName` | src/components/admin/BookingStatusBadge.tsx:10-31 | Each of the five statuses finds its own entry. |
| `StatusBadge.CaptionsDistinct` | src/components/admin/BookingStatusBadge.tsx:12-29 | The five labels are pairwise distinct. |
| `StatusBadge.EachStatusHasOwnLabel` | src/components/admin/BookingStatusBadge.tsx:10-31 | Distinct application statuses show distinct labels. |
| `StatusBadge.DatabaseStatusLabels` | src/components/admin/BookingStatusBadge.tsx:34 | Of the database statuses only `cancelled` shows its own label. All the others, `quote_sent` included, show "New Enquiry". |
| `StatusBadge.BadgeClasses` | src/components/admin/BookingStatusBadge.tsx:39-44 | The base classes come first, then the status's classes. The caller's class comes last when it is non-empty. |
| `Enquiries.EnquiryFetch` | src/pages/admin/EnquiriesPage.tsx:25-33 | The fetch asks for status `new_enquiry`, all categories, no search or dates, page 1 of 50. |
| `Enquiries.Shown` | src/pages/admin/EnquiriesPage.tsx:34 | Every shown booking is fetched and is an enquiry or `new_enquiry`. Every such fetched booking is shown. |
| `Enquiries.ShownIsOrderedAndStable` | src/pages/admin/EnquiriesPage.tsx:34 | The shown list is an order-preserving subsequence of the fetched list, and filtering again changes nothing. |
| `Enquiries.ServerFilteredListShownWhole` | src/pages/admin/EnquiriesPage.tsx:27-34 | When the server already returned only `new_enquiry` bookings, all of them are shown. |
| `Gallery.Categories` | src/pages/Gallery.tsx:12-19 | There are six categories, with "All" first. |
| `Gallery.InitialCategory` | src/pages/Gallery.tsx:37 | The page opens on "All". |
| `Gallery.FilteredImages` | src/pages/Gallery.tsx:39-42 | "All" shows the full list. Any other category shows exactly the images of that category. |
| `Gallery.FilteredKeepsOrder` | src/pages/Gallery.tsx:42 | The filtered images keep their original order. |
| `Gallery.ShippedImagesCategorised` | src/pages/Gallery.tsx:12-34 | Every shipped image's category is one of the five real categories, and the categories are distinct. |
| `Gallery.CategoriesPartition` | src/pages/Gallery.tsx:42 | When every image has one of a list of distinct categories, the per-category counts add up to the number of images. |
| `Gallery.ShippedCategoriesPartition` | src/pages/Gallery.tsx:12-34 | The five real categories partition the shipped images. |
| `Gallery.FilteredCount` | src/pages/Gallery.tsx:42 | A category shows as many images as carry it. |
| `PackagesCatalog.FeaturedSection` | src/pages/Packages.tsx:159 | The featured section shows exactly the featured packages. |
| `PackagesCatalog.OtherSection` | src/pages/Packages.tsx:224 | The "All Packages" section shows exactly the non-featured packages. |
| `PackagesCatalog.SectionsPartition` | src/pages/Packages.tsx:159-224 | The two sections are disjoint, each keeps list order, and together they are the whole list. |
| `PackagesCatalog.ShippedFeatured` | src/pages/Packages.tsx:14-116 | The shipped list features two packages: Safari, then Honeymoon. |
| `PackagesCatalog.ShippedOthers` | src/pages/Packages.tsx:14-116 | The shipped list has four non-featured packages. |

## Left out

- Supabase calls (auth, select, insert, update, delete, RPC) are not executed. Each appears as its outcome: a parameter for what the database answers, or part of the result for what is written. Cache invalidation and toasts that only report success are not modelled.
- The quote arithmetic is not modelled. The price breakdown comes from elsewhere and is carried as an opaque record. The season, availability and date-blocking RPCs have no visible body.
- Database acceptance of the payloads is not modelled. The columns the code writes but the generated schema lacks are modelled as the code builds them.
- The blocked-date loop runs on local-time `Date` objects and renders them with UTC `toISOString`. The model uses integer days in UTC, so the shift a non-UTC browser would introduce is not represented.
- `CreateBooking.BuildInsert` and `PricingAdmin.RenderFormDate` store the day that was picked. The source renders the picker's local-midnight `Date` with `toISOString().split('T')[0]` for the booking's check-in and check-out (useCreateBooking.ts:41-42) and for a season's start and end (PricingPage.tsx:156-157). In a zone east of UTC, such as India's, each stored date is therefore the day before the one picked. This shift is not modelled. Stored season dates are re-read as UTC midnight (PricingPage.tsx:294-295), so the edit-then-save round trip is unaffected.
- `Date.now()` is a natural-number parameter of `CreateBooking.TempReference`. The server-side trigger that later replaces the reference is not part of this model.
- `Calendar.IsoDate`: the round-trip and distinctness lemmas cover four-digit years only. The `+YYYYYY` extended form is rendered but not proved.
- `Calendar.ParseIsoDate`: this accepts only `YYYY-MM-DD` strings. `new Date(...)` of any other format is treated as an invalid date, although JavaScript may parse it.
- `Text.ToLower`: this maps ASCII letters only. So do `Text.ToUpper` and `Slug.GenerateSlug`. Unicode case mapping is out of scope.
- `parseFloat`/`parseInt` of form input, `NaN`, and HTML `min`/`max` hints are not modelled. Form numbers are already numbers.
- The `setTimeout` deferral, listener ordering and subscription teardown in the auth hook are not modelled. Only the state transitions are, and events arrive in any order the caller chooses.
- `AdminSidebar.IsActive`: the exact Dashboard item is highlighted by the router's own `end` match (AdminSidebar.tsx:132), which also accepts a trailing slash. The model uses string equality, as `isActive` does.
- `AdminSidebar.AtMostOneActive`: this covers the nine items of the navigation table. The Staff Management link is highlighted by the router's own match for `/admin/users` (AdminSidebar.tsx:143-157), not by `isActive`, so it is outside the lemma.
- `StatusBadge.BadgeConfig`: JavaScript object keys such as `constructor` or `toString` would also find a (non-config) value. The model treats every name other than the five statuses as a miss.
- `StatusBadge.BadgeClasses`: `cn` merges Tailwind classes, and that merging is not modelled. The class list is given in order.
- `useBookings` and `convertEnquiry`, which the enquiries page calls, are not part of this model. The fetched list is a parameter.
- Edge functions, the admin layout, static marketing pages, and the generated type helpers are not modelled. The exception is the `booking_status` and `app_role` enums.

## Findings

| source | as written | input that shows it | evidently intended | confidence | as-written member | corrected member |
|---|---|---|---|---|---|---|
| src/hooks/useAuth.ts:38-52 | A role result is applied whenever the hook is still mounted, whichever user it was fetched for. | Session for alice, then sign-out, then alice's lookup returns `super_admin`. The state has no user but `isSuperAdmin` holds. Likewise alice then bob: alice's late result lands on bob. | Apply a role only while the hook holds the user it was fetched for. | not executed; medium (depends on the lookup finishing after the next session change) | `Auth.StaleRoleAfterSignOut` | `Auth.GuardedRoleBelongsToUser` |
| src/pages/admin/PackagesPage.tsx:333 | The Cancel button of every admin dialog calls only `setXDialogOpen(false)`. This is also true at RoomsPage.tsx:310 and PricingPage.tsx:406, 493 and 623. A controlled dialog does not call `onOpenChange` for this, so the edited row and the form are not reset. | Edit package X, press Cancel, then press Add Package. The dialog is titled "Edit Package" with X's fields, and saving issues `update(...).eq("id", X.id)` instead of an insert. | Cancel closes like the dialog's own controls, so the reset in `onOpenChange` (PackagesPage.tsx:183-189) applies. | not executed; high (rests on the dialog component reporting only its own interactions through `onOpenChange`) | `AdminDialog.CancelThenAddUpdatesEditedRow` | `AdminDialog.GuardedCancelThenAddCreates` |
