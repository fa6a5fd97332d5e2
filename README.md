# DeHelp community core in Dafny

This project models three parts of the DeHelp web application and proves properties of them:

- **Community service** (`actions/community.ts`). It covers the creation schema, the two
  lookup helpers, `createCommunity`, `getUserCommunity` and `updateCommunity`, over an in-memory
  store of Community and CommunityMember rows.
- **Notification centre** (`components/dashboard/NotificationsCenter.tsx`). It covers the type
  table, the type filter and its toggle buttons, dismissal by id, the badge count and the
  expand/collapse toggle.
- **Inline name editor** (`components/profile/EditUserName.tsx`). It covers edit mode, the edit
  buffer, the effect that reloads the buffer, and a submit that trims the input and refuses a
  blank name.

Files:

- `wrappers.dfy`: `Option`.
- `text.dfy`: JavaScript `String.prototype.trim` over the ECMAScript white-space and
  line-terminator characters, plus upper- and lower-casing.
- `community_schema.dfy`: the zod schema as a reference predicate (`Accepts`) and as the
  first-issue function the action reports (`FirstValidationError`).
- `community_actions.dfy`: the store and the lookups. It holds one specification function per
  action, whose result is the response and the new store. Class `Db` holds the store as fields;
  its methods run the checks, the `memberData` loop and the in-place update, and each is proved
  equal to its specification function.
- `notifications_center.dfy`: class `NotificationsCenter` over the fixed notification list. The
  filter is an order-preserving `Filter`, and "order preserved" is the `Subseq` relation.
- `edit_user_name.dfy`: class `EditUserName` holding the component's state.

Modelling choices:

- A community's id is its position in the community table. `updateCommunity` with an id that is
  not in the table finds no community and is refused.
- `clock` stands for `new Date()`. The new community's `createdAt` and `updatedAt` share one
  reading (the two `new Date()` calls are taken as the same instant). Every other stamp reads
  the clock and moves it forward, so stamps rise strictly in the order they are taken. The store invariant `WellFormed` keeps ids
  positional, keeps member rows pointing at existing communities, and keeps member rows in the
  order they joined. Every successful action preserves it.
- The session user (`currentUser()`) is a parameter. `actions/community.ts` does not import
  `currentUser`, so as written those calls would throw and end in the generic catch; the model
  assumes the session lookup resolves. An empty id means a missing id. An email of
  `None` means an `undefined` email.
- Zod's email and URL recognisers are functions passed in (`FormatChecks`).
- The store's failures are parameters (`txFault`, `fault`). A failure inside the creation
  transaction inserts nothing.
- The MemberRole enum is taken to be MEMBER, ELDER, CO_LEADER, LEADER. A member row whose role
  is not one of these makes the bulk insert fail.
- How a submit of the name editor ends is a parameter (`SubmitOutcome`). The 500 ms delay
  itself always resolves; `DelayFailed` stands for a throw after it and before the name is set,
  such as from the success toast. `CallbackFailed` stands for the parent's `onUpdate` callback
  throwing after the name is set.

Behaviours of the code that the model keeps and proves:

- `isUserInAnyCommunity` compares member emails with the user's account id
  (`actions/community.ts:47`). A user who joined another community by email therefore passes the
  check and can create a community of their own (`InviteeCanCreateSecondCommunity`).
- The name check runs on the untrimmed name, but the stored name is trimmed
  (`actions/community.ts:120`, `:133`). So "Alpha " is accepted beside an existing "Alpha", and
  both rows are named "Alpha" (`UntrimmedNameCheckAdmitsDuplicate`).
- A name of three spaces passes the schema, and the community is stored with an empty name
  (`BlankNameStoredEmpty`).
- An invitee designated "leader" becomes a second LEADER (`LeaderInviteAddsSecondLeader`).
- An invitee designated "co-leader" is cast to "CO-LEADER", which is not an enum value. The
  whole creation then fails with the generic message (`CoLeaderInviteAbortsCreation`).
- `updateCommunity` does not re-run the schema (`UpdateSkipsValidation`).
- A user with no email passes the leader filter through any LEADER or CO_LEADER row of the
  community. This happens because Prisma drops a filter whose value is `undefined`
  (`MissingEmailMayUpdateNewCommunity`).
- The application means each user to belong to at most one community and names to be unique.
  Because of the first two behaviours above, the code guarantees neither. The model follows
  the code.

## Model

| member | source | states |
|---|---|---|
| CommunitySchema.FirstValidationError | actions/community.ts:7-24 | no issue is reported exactly when every rule of the schema holds (`Accepts`); each of the nine messages is returned exactly when its rule is broken and every rule before it in zod's order (name length, name pattern, description length, logo URL, invite count, then the invites) holds |
| CommunitySchema.FirstInviteError | actions/community.ts:18-23 | no invite issue exactly when every invite has a valid email and a listed designation; "Invalid email address" exactly when the first invalid invite has a bad email, and "Invalid role designation" exactly when it has a good email and an unlisted designation |
| CommunityActions.AnyMembershipMatches | actions/community.ts:43-52 | true exactly when some member row belongs to a community the user created, or carries the user id as its email |
| CommunityActions.IsUserInAnyCommunity | actions/community.ts:39-57 | raises exactly for an empty id; otherwise true exactly when some row matches the creator-or-email filter |
| CommunityActions.AnyCommunityNamed | actions/community.ts:69-78 | true exactly when some community's name equals the given name ignoring case |
| CommunityActions.IsCommunityNameTaken | actions/community.ts:65-83 | raises exactly for an empty name; otherwise true exactly when a community has that name ignoring case |
| CommunityActions.AnyMemberRow | actions/community.ts:206 | true exactly when a row of that community carries that email |
| CommunityActions.FirstCommunityOf | actions/community.ts:202-208 | `findFirst`: the first community created by the user or listing the user's id as a member email; None only when no community matches |
| CommunityActions.RosterOf | actions/community.ts:209-214 | the rows of the community and no others; ordered by join time whenever the table is |
| CommunityActions.GetUserCommunity | actions/community.ts:198-226 | raises exactly for an empty id; None exactly when no community involves the user; otherwise the first involving community, all of its rows in join order, and a count equal to the number of rows |
| CommunityActions.DedupShape | actions/community.ts:154-166 | the kept invitees come from the list, none has an email already seen, and their emails are pairwise distinct |
| CommunityActions.DedupSnoc | actions/community.ts:156-158 | a new invitee is kept exactly when neither the seen set nor an earlier invitee has its email |
| CommunityActions.DedupEmails | actions/community.ts:156-158 | no email is lost: the kept emails are the list's emails minus those already seen |
| CommunityActions.DedupLength | actions/community.ts:156-158 | one kept invitee per distinct unseen email |
| CommunityActions.RosterShape | actions/community.ts:143-167 | `memberData` starts with the creator as LEADER, never repeats an email, has one row per distinct email, and stamps the rows in order |
| CommunityActions.RosterDistinct | actions/community.ts:143-167 | no two rows of `memberData` share an email |
| CommunityActions.InviteRowsEmails | actions/community.ts:159-164 | the invitee rows carry exactly the kept emails |
| CommunityActions.RosterEmails | actions/community.ts:143-167 | the emails of `memberData` are exactly the creator's email and the invited emails |
| CommunityActions.UpperOfDesignations | actions/community.ts:161 | the four designations cast to MEMBER, ELDER, LEADER and CO-LEADER |
| CommunityActions.RoleCastAccepts | actions/community.ts:20 | a listed designation casts to an enum role exactly when it is not "co-leader" |
| CommunityActions.CreateCheck | actions/community.ts:93-126 | when no check fails, the input is accepted, the user is authenticated, and neither lookup reports a match |
| CommunityActions.CreateTransaction | actions/community.ts:129-175 | all or nothing: either the trimmed community and the whole `memberData` are added and the clock moves past them, or the store is unchanged and the generic error is returned; success carries "Community created successfully"; the invariant is kept |
| CommunityActions.CreateOutcome | actions/community.ts:90-190 | failure leaves the store unchanged; once the checks pass, any failure is the generic "Failed to create community. Please try again."; success carries "Community created successfully", implies every check passed and gives the exact new store; the invariant is kept |
| CommunityActions.CreateFailureMessages | actions/community.ts:93-126 | each failing check yields its own message, in the order the checks run, and the store is unchanged |
| CommunityActions.CreateSucceedsWhenChecksPass | actions/community.ts:90-181 | the converse: accepted input, an authenticated user, no matching membership or name, and accepted roles make a fault-free creation succeed |
| CommunityActions.ChecksPass | actions/community.ts:93-126 | accepted input, an authenticated user, and no matching membership or name pass every check |
| CommunityActions.TransactionCommits | actions/community.ts:129-175 | a roster whose roles are all in the enum commits when the store does not fail |
| CommunityActions.TransactionRejects | actions/community.ts:170-175 | a roster with a role outside the enum fails the transaction with the generic message and leaves the store unchanged |
| CommunityActions.CoLeaderInviteAbortsCreation | actions/community.ts:161 | a kept "co-leader" invitee makes the creation fail and leaves the store unchanged |
| CommunityActions.RosterRejectsCoLeader | actions/community.ts:161 | a kept "co-leader" invitee gives `memberData` a role outside the enum |
| CommunityActions.LeaderInviteAddsSecondLeader | actions/community.ts:146-161 | a kept "leader" invitee is a LEADER row beside the creator's |
| CommunityActions.CreatorFindsCommunity | actions/community.ts:136 | after a successful creation, `getUserCommunity` with the creator's id finds a community |
| CommunityActions.InviteeCanCreateSecondCommunity | actions/community.ts:47 | a user already listed by email in one community creates a second one and leads it |
| CommunityActions.UntrimmedNameCheckAdmitsDuplicate | actions/community.ts:120 | "Alpha " passes beside "Alpha", and two communities named "Alpha" are stored |
| CommunityActions.TrailingSpaceTrimmed | actions/community.ts:133 | the stored name drops the trailing space |
| CommunityActions.BlankNameStoredEmpty | actions/community.ts:11 | a name of spaces passes the schema and is stored empty |
| CommunityActions.AnyLeaderRow | actions/community.ts:253-259 | true exactly when a LEADER or CO_LEADER row of the community matches the email filter |
| CommunityActions.MayUpdate | actions/community.ts:248-263 | the community exists, and the user created it or has a leader row in it |
| CommunityActions.UpdateOutcome | actions/community.ts:234-296 | succeeds exactly for an authenticated, permitted user without a fault; the auth and permission failures give their messages, and a store fault for a permitted user gives "Failed to update community"; success carries "Community updated successfully"; failures leave the store unchanged; success replaces only that community, with the update applied and a fresh `updatedAt`; the invariant is kept |
| CommunityActions.CreatorMayUpdate | actions/community.ts:252 | the creator's update succeeds whatever the member rows say |
| CommunityActions.MemberRoleCannotUpdate | actions/community.ts:253-270 | a user who is not the creator and whose rows are MEMBER or ELDER is refused, and nothing changes |
| CommunityActions.MissingEmailMayUpdateNewCommunity | actions/community.ts:256 | a signed-in user without an email may update a community just created by someone else |
| CommunityActions.UpdateSkipsValidation | actions/community.ts:272-281 | an update stores a name that the creation schema refuses |
| CommunityActions.SpacedNameTrimmed | actions/community.ts:276 | the update trims " a! " to "a!" |
| CommunityActions.EmptyUpdateOnlyTouchesTimestamp | actions/community.ts:275-280 | absent or empty fields keep their values; only `updatedAt` changes |
| CommunityActions.MemberDataStep | actions/community.ts:156-158 | one loop turn: the `memberEmails` set grows by the invitee's email, and the invitee is kept exactly when the set lacked it |
| CommunityActions.BuildMemberData | actions/community.ts:143-167 | the loop builds exactly `Roster`: the creator's row, then the first row for each new email |
| CommunityActions.Db.CreateCommunity | actions/community.ts:90-190 | the response and the new store are those of `CreateOutcome`; the invariant is kept |
| CommunityActions.Db.Transaction | actions/community.ts:129-175 | the response and the new store are those of `CreateTransaction` |
| CommunityActions.Db.UpdateCommunity | actions/community.ts:234-296 | the response and the new store are those of `UpdateOutcome`; the invariant is kept |
| Text.TrimStartShape | actions/community.ts:133 | drops exactly the leading white space: the result is a suffix, everything dropped is white space, and it does not start with white space |
| Text.TrimEndShape | actions/community.ts:133 | drops exactly the trailing white space: the result is a prefix, everything dropped is white space, and it does not end with white space |
| Text.TrimSlice | actions/community.ts:133 | the trimmed string is the slice after the leading white space, followed only by white space |
| Text.TrimEnds | components/profile/EditUserName.tsx:47-48 | the trimmed string is empty exactly when the input is all white space; otherwise it starts and ends with other characters |
| Text.TrimShape | actions/community.ts:133-134 | the trimmed string is a slice with only white space around it; it is empty exactly when the input is all white space; otherwise it starts and ends with other characters |
| Text.TrimIdempotent | components/profile/EditUserName.tsx:47 | trimming twice is trimming once |
| Text.TrimOfTrimmed | components/profile/EditUserName.tsx:47 | a string without white space at either end is its own trim |
| Text.ToUpper | actions/community.ts:161 | the cast keeps the length |
| Notifications.Filter | components/dashboard/NotificationsCenter.tsx:85 | `Array.prototype.filter`: the result is a subsequence of the input holding exactly the passing values, never grows, and keeps the length exactly when every entry passes |
| Notifications.FilterCounts | components/dashboard/NotificationsCenter.tsx:85 | every copy of a passing entry is kept: a passing value occurs as often in the result as in the input |
| Notifications.SubseqLength | components/dashboard/NotificationsCenter.tsx:105 | a list with entries removed is no longer than the original |
| Notifications.SubseqTransitive | components/dashboard/NotificationsCenter.tsx:94 | removing entries from a list with entries removed leaves a list with entries removed from the original |
| Notifications.SubseqOfFilter | components/dashboard/NotificationsCenter.tsx:85 | a subsequence whose entries all pass a test is a subsequence of the filtered list |
| Notifications.FilterKeepsAll | components/dashboard/NotificationsCenter.tsx:94 | filtering by a test every entry passes changes nothing |
| Notifications.OfKind | components/dashboard/NotificationsCenter.tsx:84-86 | the base entries of the type, and no others, in base order |
| Notifications.OneOfEachKind | components/dashboard/NotificationsCenter.tsx:41-74 | the base list holds exactly one notification of each type |
| Notifications.ActionableKinds | components/dashboard/NotificationsCenter.tsx:18-39 | an entry shows accept/dismiss buttons (`ActionsShown`, the condition rendered at line 156) exactly when its type is PROPOSAL, MESSAGE or VOTING, that is, not ALERT |
| Notifications.DismissTwice | components/dashboard/NotificationsCenter.tsx:93-95 | dismissing an id twice is the same as dismissing it once |
| Notifications.DismissAbsent | components/dashboard/NotificationsCenter.tsx:94 | dismissing an id that is not shown changes nothing |
| Notifications.NotificationsCenter.constructor | components/dashboard/NotificationsCenter.tsx:77-79 | starts with the whole base list, no filter and nothing expanded |
| Notifications.NotificationsCenter.FilterNotifications | components/dashboard/NotificationsCenter.tsx:82-90 | sets the active filter; a type shows that type's base entries, and no type shows the whole base list again |
| Notifications.NotificationsCenter.OnKindButton | components/dashboard/NotificationsCenter.tsx:114 | the active type's button clears the filter; any other type's button selects that type |
| Notifications.NotificationsCenter.HandleNotificationAction | components/dashboard/NotificationsCenter.tsx:93-96 | removes exactly the shown entries with the id and keeps the rest in order; the action, filter and expansion do not matter and do not change |
| Notifications.NotificationsCenter.OnNotificationClick | components/dashboard/NotificationsCenter.tsx:142-144 | collapses the entry if it is the expanded one by id; otherwise expands it |
| Notifications.NotificationsCenter.BadgeCount | components/dashboard/NotificationsCenter.tsx:104-106 | the number of shown entries; at most the base list's length, and at most one under a type filter |
| Notifications.ClickTwiceCollapses | components/dashboard/NotificationsCenter.tsx:142-151 | after two clicks from nothing expanded, an entry shows its description exactly when its id differs from the first click's |
| Profile.DefaultNameIsClean | components/profile/EditUserName.tsx:20 | the default name is not blank and has no white space around it |
| Profile.TrimmedInputIsClean | components/profile/EditUserName.tsx:47-48 | a buffer that does not trim to nothing is not all white space, and its trim is a clean name |
| Profile.EditUserName.constructor | components/profile/EditUserName.tsx:20-24 | name and buffer are "Ayush Upadhyay"; not editing, not loading, no error |
| Profile.EditUserName.HandleEditToggle | components/profile/EditUserName.tsx:26-35 | flips edit mode and clears the error; entering edit mode copies the name into the buffer; the name never changes |
| Profile.EditUserName.EditEntryEffect | components/profile/EditUserName.tsx:26-30 | in edit mode the buffer becomes the name; otherwise nothing changes |
| Profile.EditUserName.HandleInputChange | components/profile/EditUserName.tsx:37-41 | the buffer takes the new text and the error clears; the name and mode stay |
| Profile.EditUserName.HandleSubmit | components/profile/EditUserName.tsx:43-79 | a blank buffer only sets "Name cannot be empty"; a throw before the name is set only sets "Failed to update name"; otherwise the name becomes the trimmed buffer, edit mode ends and `onUpdate` receives it, and a throwing callback also sets the failure message; loading always ends and the name stays clean |
| Profile.EditUserName.SubmitEnabled | components/profile/EditUserName.tsx:103 | enabled exactly when nothing is loading and the buffer is not all white space |

## Left out

- Prisma, the database, and the network are replaced by the in-memory `Store`. A fault inside a
  lookup is not modelled, so the lookups' "Failed to check …" and "Failed to fetch …" errors do
  not appear. The store faults of the transaction and of the update are parameters.
- Prisma's `findFirst` order is taken as table order, and the roster is read in table order. The
  invariant makes table order agree with `joinedAt`, so two rows never share a timestamp.
- Community ids are table positions, not generated strings.
- `currentUser()` is a parameter, taken to resolve even though `actions/community.ts` does not
  import it. A `null` email, as opposed to an `undefined` one, is not
  modelled.
- `new Date()` is the monotone `clock`. Wall-clock time is not modelled.
- Zod's email and URL regular expressions are functions passed in, not modelled.
- String lengths count characters, not UTF-16 code units.
- `ToUpper` and `ToLower` fold ASCII letters only. The case-insensitive name comparison of the
  database is modelled the same way.
- Text.ToUpper: states only that the length is kept; the mapping of the designations is stated
  by `UpperOfDesignations`.
- Concurrency is not modelled. In particular, two creations racing between the checks and the
  transaction are not modelled.
- `console.error` and the toasts are not modelled.
- The 500 ms timer of the name editor never rejects. The model still admits a failure between
  it and setting the name (`DelayFailed`), which only a throwing success toast can cause.
- Rendering, styling, icons and animation are not modelled.
- The mid-submit state of the name editor is not modelled. Each handler is one atomic step, so
  the loading spinner and the disabled inputs during the delay are not observable in the model.
- The MemberRole enum's definition is not part of this model. Its values are assumed to be
  MEMBER, ELDER, CO_LEADER and LEADER.
- `components/home/SuccessStories.tsx` and the dashboard pages are not part of this model.
