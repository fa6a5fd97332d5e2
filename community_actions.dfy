/**
 * The community membership service: the lookups, `createCommunity` and `updateCommunity`,
 * over an in-memory store of Community and CommunityMember rows.
 *
 * The store is a value (`Store`) for the specification functions and the fields of the
 * class `Db` for the operations. A community's id is its position in the community table.
 * `clock` stands for `new Date()`. The community's `createdAt` and `updatedAt` share one
 * reading; every later stamp reads the clock and advances it, so stamps rise strictly in
 * the order they are taken.
 */
module CommunityActions {
  import opened Wrappers
  import opened Text
  import opened CommunitySchema

  datatype Community = Community(
    id: nat,
    name: string,
    description: string,
    logo: string,
    creatorId: string,
    createdAt: nat,
    updatedAt: nat)

  datatype CommunityMember = CommunityMember(email: string, role: string, communityId: nat, joinedAt: nat)

  /** A community with its roster and `_count.members`, as `getUserCommunity` returns it. */
  datatype CommunityWithMembers = CommunityWithMembers(
    community: Community,
    members: seq<CommunityMember>,
    memberCount: nat)

  /** The session identity; an empty id stands for a missing one, `None` for an undefined email. */
  datatype User = User(id: string, email: Option<string>)

  /** `Partial<CreateCommunityInput>` as `updateCommunity` reads it. */
  datatype UpdateInput = UpdateInput(name: Option<string>, description: Option<string>, logo: Option<string>)

  /** `ActionResponse` of the create and update actions. */
  datatype ActionResponse = Succeeded(data: Community, message: string) | Failed(error: string)

  /** The result of a lookup helper, which raises instead of returning a failure. */
  datatype Lookup<T> = Returned(value: T) | Threw(message: string)

  datatype Store = Store(communities: seq<Community>, members: seq<CommunityMember>, clock: nat)

  /** The MemberRole enum of the store; a row whose role is not one of these is rejected. */
  const Leader := "LEADER"
  const CoLeader := "CO_LEADER"
  const MemberRoles: set<string> := {"MEMBER", "ELDER", "CO_LEADER", "LEADER"}

  const UserIdRequired := "User ID is required"
  const NameRequired := "Community name is required"
  const AuthFailed := "User authentication failed"
  const AlreadyMember := "You are already a member of a community"
  const NameExists := "A community with this name already exists"
  const CreateFailed := "Failed to create community. Please try again."
  const Created := "Community created successfully"
  const PermissionDenied := "You don't have permission to update this community"
  const UpdateFailed := "Failed to update community"
  const Updated := "Community updated successfully"

  predicate JoinOrdered(ms: seq<CommunityMember>) {
    forall j, k | 0 <= j < k < |ms| :: ms[j].joinedAt < ms[k].joinedAt
  }

  /** The store's invariant: ids are positions, rows point at existing communities, every
      stamp is older than the clock, and member rows are in the order they joined. */
  predicate WellFormed(st: Store) {
    && (forall i | 0 <= i < |st.communities| ::
          && st.communities[i].id == i
          && st.communities[i].createdAt <= st.communities[i].updatedAt < st.clock)
    && (forall k | 0 <= k < |st.members| ::
          st.members[k].communityId < |st.communities| && st.members[k].joinedAt < st.clock)
    && JoinOrdered(st.members)
  }

  // ---------------------------------------------------------------------------------------
  // isUserInAnyCommunity

  /** The filter of `isUserInAnyCommunity`: the row's community was created by `userId`, or
      the row's email equals `userId` (an account id compared with an email). */
  predicate MembershipMatches(cs: seq<Community>, m: CommunityMember, userId: string) {
    (m.communityId < |cs| && cs[m.communityId].creatorId == userId) || m.email == userId
  }

  function AnyMembershipMatches(cs: seq<Community>, ms: seq<CommunityMember>, userId: string): (r: bool)
    ensures r <==> exists k | 0 <= k < |ms| :: MembershipMatches(cs, ms[k], userId)
  {
    if ms == [] then false
    else
      assert forall k | 1 <= k < |ms| :: ms[k] == ms[1..][k - 1];
      MembershipMatches(cs, ms[0], userId) || AnyMembershipMatches(cs, ms[1..], userId)
  }

  function IsUserInAnyCommunity(st: Store, userId: string): (r: Lookup<bool>)
    ensures r.Threw? <==> userId == ""
    ensures r.Returned? ==>
              (r.value <==> exists k | 0 <= k < |st.members| ::
                              MembershipMatches(st.communities, st.members[k], userId))
  {
    if userId == "" then Threw(UserIdRequired)
    else Returned(AnyMembershipMatches(st.communities, st.members, userId))
  }

  // ---------------------------------------------------------------------------------------
  // isCommunityNameTaken

  function AnyCommunityNamed(cs: seq<Community>, name: string): (r: bool)
    ensures r <==> exists i | 0 <= i < |cs| :: EqualsIgnoringCase(cs[i].name, name)
  {
    if cs == [] then false
    else
      assert forall i | 1 <= i < |cs| :: cs[i] == cs[1..][i - 1];
      EqualsIgnoringCase(cs[0].name, name) || AnyCommunityNamed(cs[1..], name)
  }

  function IsCommunityNameTaken(st: Store, name: string): (r: Lookup<bool>)
    ensures r.Threw? <==> name == ""
    ensures r.Returned? ==>
              (r.value <==> exists i | 0 <= i < |st.communities| ::
                              EqualsIgnoringCase(st.communities[i].name, name))
  {
    if name == "" then Threw(NameRequired)
    else Returned(AnyCommunityNamed(st.communities, name))
  }

  // ---------------------------------------------------------------------------------------
  // getUserCommunity

  predicate IsMemberRow(m: CommunityMember, cid: nat, email: string) {
    m.communityId == cid && m.email == email
  }

  function AnyMemberRow(ms: seq<CommunityMember>, cid: nat, email: string): (r: bool)
    ensures r <==> exists k | 0 <= k < |ms| :: IsMemberRow(ms[k], cid, email)
  {
    if ms == [] then false
    else
      assert forall k | 1 <= k < |ms| :: ms[k] == ms[1..][k - 1];
      IsMemberRow(ms[0], cid, email) || AnyMemberRow(ms[1..], cid, email)
  }

  /** The filter of `getUserCommunity`: created by `userId`, or with a row whose email is `userId`. */
  predicate Involves(ms: seq<CommunityMember>, c: Community, userId: string) {
    c.creatorId == userId || exists k | 0 <= k < |ms| :: IsMemberRow(ms[k], c.id, userId)
  }

  /** `findFirst`: the first community, from position `from` on, that the filter selects. */
  function FirstCommunityOf(cs: seq<Community>, ms: seq<CommunityMember>, userId: string, from: nat): (r: Option<nat>)
    requires from <= |cs|
    decreases |cs| - from
    ensures r.Some? ==>
              && from <= r.value < |cs| && Involves(ms, cs[r.value], userId)
              && forall j | from <= j < r.value :: !Involves(ms, cs[j], userId)
    ensures r.None? ==> forall j | from <= j < |cs| :: !Involves(ms, cs[j], userId)
  {
    if from == |cs| then None
    else if cs[from].creatorId == userId || AnyMemberRow(ms, cs[from].id, userId) then Some(from)
    else FirstCommunityOf(cs, ms, userId, from + 1)
  }

  /** The rows of community `cid`, in table order. */
  function RosterOf(ms: seq<CommunityMember>, cid: nat): (r: seq<CommunityMember>)
    ensures |r| <= |ms|
    ensures forall m :: m in r <==> m in ms && m.communityId == cid
    ensures JoinOrdered(ms) ==> JoinOrdered(r)
  {
    if ms == [] then []
    else
      var rest := RosterOf(ms[1..], cid);
      RosterOfStep(ms, cid, rest);
      if ms[0].communityId == cid then [ms[0]] + rest else rest
  }

  lemma RosterOfStep(ms: seq<CommunityMember>, cid: nat, rest: seq<CommunityMember>)
    requires ms != []
    requires forall m :: m in rest <==> m in ms[1..] && m.communityId == cid
    requires JoinOrdered(ms[1..]) ==> JoinOrdered(rest)
    ensures forall m :: m in ms <==> m == ms[0] || m in ms[1..]
    ensures JoinOrdered(ms) ==> JoinOrdered(rest) && JoinOrdered([ms[0]] + rest)
  {
    assert ms == [ms[0]] + ms[1..];
    if JoinOrdered(ms) {
      JoinOrderedTail(ms);
      JoinOrderedCons(ms[0], rest);
    }
  }

  /** In an ordered table the head joined first and the tail is ordered. */
  lemma JoinOrderedTail(ms: seq<CommunityMember>)
    requires ms != [] && JoinOrdered(ms)
    ensures JoinOrdered(ms[1..])
    ensures forall m | m in ms[1..] :: ms[0].joinedAt < m.joinedAt
  {
    forall m | m in ms[1..]
      ensures ms[0].joinedAt < m.joinedAt
    {
      var k :| 0 <= k < |ms[1..]| && ms[1..][k] == m;
      assert ms[k + 1] == m;
    }
  }

  /** A row that joined before every row of an ordered list can go in front of it. */
  lemma JoinOrderedCons(x: CommunityMember, rest: seq<CommunityMember>)
    requires JoinOrdered(rest)
    requires forall m | m in rest :: x.joinedAt < m.joinedAt
    ensures JoinOrdered([x] + rest)
  {
    var r := [x] + rest;
    forall j, k | 0 <= j < k < |r|
      ensures r[j].joinedAt < r[k].joinedAt
    {
      assert r[k] == rest[k - 1] && r[k] in rest;
      if j > 0 {
        assert r[j] == rest[j - 1];
      }
    }
  }

  function GetUserCommunity(st: Store, userId: string): (r: Lookup<Option<CommunityWithMembers>>)
    ensures r.Threw? <==> userId == ""
    ensures r.Returned? ==>
              (r.value.None? <==>
                 forall i | 0 <= i < |st.communities| :: !Involves(st.members, st.communities[i], userId))
    ensures r.Returned? && r.value.Some? ==>
              var found := r.value.value;
              && (exists i | 0 <= i < |st.communities| ::
                    && st.communities[i] == found.community
                    && forall j | 0 <= j < i :: !Involves(st.members, st.communities[j], userId))
              && Involves(st.members, found.community, userId)
              && (forall m :: m in found.members <==> m in st.members && m.communityId == found.community.id)
              && (JoinOrdered(st.members) ==> JoinOrdered(found.members))
              && found.memberCount == |found.members|
  {
    if userId == "" then Threw(UserIdRequired)
    else
      match FirstCommunityOf(st.communities, st.members, userId, 0)
      case None => Returned(None)
      case Some(i) =>
        var c := st.communities[i];
        var roster := RosterOf(st.members, c.id);
        Returned(Some(CommunityWithMembers(c, roster, |roster|)))
  }

  // ---------------------------------------------------------------------------------------
  // createCommunity

  function Emails(xs: seq<Invite>): set<string> {
    set x | x in xs :: x.email
  }

  lemma EmailsCons(xs: seq<Invite>)
    requires xs != []
    ensures Emails(xs) == {xs[0].email} + Emails(xs[1..])
  {
    assert forall x :: x in xs <==> x == xs[0] || x in xs[1..];
  }

  lemma EmailsSnoc(xs: seq<Invite>, x: Invite)
    ensures Emails(xs + [x]) == Emails(xs) + {x.email}
  {
    assert forall y :: y in xs + [x] <==> y in xs || y == x;
  }

  /** The invitees the `memberEmails` set lets through, starting from the emails in `seen`. */
  function Dedup(seen: set<string>, xs: seq<Invite>): seq<Invite>
    decreases |xs|
  {
    if xs == [] then []
    else if xs[0].email in seen then Dedup(seen, xs[1..])
    else [xs[0]] + Dedup(seen + {xs[0].email}, xs[1..])
  }

  /** The kept invitees come from the list, none has an email already seen, and their emails
      are pairwise distinct. */
  lemma {:induction false} DedupShape(seen: set<string>, xs: seq<Invite>)
    ensures var r := Dedup(seen, xs);
      && |r| <= |xs|
      && (forall k | 0 <= k < |r| :: r[k] in xs && r[k].email !in seen)
      && (forall j, k | 0 <= j < k < |r| :: r[j].email != r[k].email)
    decreases |xs|
  {
    if xs != [] {
      assert forall x | x in xs[1..] :: x in xs;
      var e := xs[0].email;
      if e in seen {
        DedupShape(seen, xs[1..]);
      } else {
        var rest := Dedup(seen + {e}, xs[1..]);
        DedupShape(seen + {e}, xs[1..]);
        var r := [xs[0]] + rest;
        assert r == Dedup(seen, xs);
        forall k | 0 <= k < |r|
          ensures r[k] in xs && r[k].email !in seen
        {
          if k > 0 {
            assert r[k] == rest[k - 1];
          }
        }
        forall j, k | 0 <= j < k < |r|
          ensures r[j].email != r[k].email
        {
          assert r[k] == rest[k - 1];
          if j > 0 {
            assert r[j] == rest[j - 1];
          }
        }
      }
    }
  }

  /** Dedup read from the back: an invitee is kept exactly when its email has not been seen
      and no earlier invitee has it, so the first occurrence wins and the order is the input's. */
  lemma {:induction false} DedupSnoc(seen: set<string>, xs: seq<Invite>, x: Invite)
    ensures Dedup(seen, xs + [x]) ==
            Dedup(seen, xs) + (if x.email in seen || x.email in Emails(xs) then [] else [x])
    decreases |xs|
  {
    if xs == [] {
      assert Emails(xs) == {};
      assert Dedup(seen, [x][1..]) == [];
    } else {
      var ys := xs + [x];
      assert ys[0] == xs[0] && ys[1..] == xs[1..] + [x];
      EmailsCons(xs);
      if xs[0].email in seen {
        DedupSnoc(seen, xs[1..], x);
      } else {
        DedupSnoc(seen + {xs[0].email}, xs[1..], x);
      }
    }
  }

  /** Nothing is lost: the kept invitees carry every email of the list that was not seen already. */
  lemma {:induction false} DedupEmails(seen: set<string>, xs: seq<Invite>)
    ensures Emails(Dedup(seen, xs)) == Emails(xs) - seen
    decreases |xs|
  {
    if xs != [] {
      EmailsCons(xs);
      if xs[0].email in seen {
        DedupEmails(seen, xs[1..]);
      } else {
        var rest := Dedup(seen + {xs[0].email}, xs[1..]);
        DedupEmails(seen + {xs[0].email}, xs[1..]);
        EmailsCons([xs[0]] + rest);
        assert ([xs[0]] + rest)[1..] == rest;
      }
    }
  }

  /** One row per distinct email not seen already: the roster is as long as that set is large. */
  lemma {:induction false} DedupLength(seen: set<string>, xs: seq<Invite>)
    ensures |Dedup(seen, xs)| == |Emails(xs) - seen|
    decreases |xs|
  {
    if xs != [] {
      EmailsCons(xs);
      var e := xs[0].email;
      var rest := Emails(xs[1..]);
      if e in seen {
        DedupLength(seen, xs[1..]);
        SeenEmailCount(e, seen, rest);
      } else {
        DedupLength(seen + {e}, xs[1..]);
        UnseenEmailCount(e, seen, rest);
      }
    }
  }

  lemma SeenEmailCount(e: string, seen: set<string>, rest: set<string>)
    requires e in seen
    ensures ({e} + rest) - seen == rest - seen
  {
  }

  lemma UnseenEmailCount(e: string, seen: set<string>, rest: set<string>)
    requires e !in seen
    ensures |({e} + rest) - seen| == 1 + |rest - (seen + {e})|
  {
    var unseen := rest - (seen + {e});
    assert ({e} + rest) - seen == {e} + unseen;
  }

  /** `member.designation.toUpperCase() as MemberRole`. */
  function InviteRole(designation: string): string {
    ToUpper(designation)
  }

  /** The rows of the kept invitees, stamped from `t` on. */
  function InviteRows(kept: seq<Invite>, cid: nat, t: nat): (r: seq<CommunityMember>)
    ensures |r| == |kept|
  {
    seq(|kept|, k requires 0 <= k < |kept| =>
      CommunityMember(kept[k].email, InviteRole(kept[k].designation), cid, t + k))
  }

  /** `memberData`: the creator as LEADER stamped `t`, then the first occurrence of every
      other invited email with its cast designation. */
  function Roster(email: string, invites: seq<Invite>, cid: nat, t: nat): seq<CommunityMember> {
    [CommunityMember(email, Leader, cid, t)] + InviteRows(Dedup({email}, invites), cid, t + 1)
  }

  /** The creator's row comes first, as LEADER, and its email is never repeated; emails are
      pairwise distinct; there is one row per distinct email; stamps follow the row order. */
  lemma RosterShape(email: string, invites: seq<Invite>, cid: nat, t: nat)
    ensures var r := Roster(email, invites, cid, t);
      && 1 <= |r| <= 1 + |invites|
      && |r| == 1 + |Emails(invites) - {email}|
      && r[0] == CommunityMember(email, Leader, cid, t)
      && (forall k | 1 <= k < |r| :: r[k].email != email)
      && (forall j, k | 0 <= j < k < |r| :: r[j].email != r[k].email)
      && (forall k | 0 <= k < |r| :: r[k].communityId == cid && r[k].joinedAt == t + k)
  {
    DedupLength({email}, invites);
    DedupShape({email}, invites);
    RosterDistinct(email, invites, cid, t);
  }

  lemma RosterDistinct(email: string, invites: seq<Invite>, cid: nat, t: nat)
    ensures var r := Roster(email, invites, cid, t);
      forall j, k | 0 <= j < k < |r| :: r[j].email != r[k].email
  {
    var kept := Dedup({email}, invites);
    var r := Roster(email, invites, cid, t);
    DedupShape({email}, invites);
    forall j, k | 0 <= j < k < |r|
      ensures r[j].email != r[k].email
    {
      assert r[k].email == kept[k - 1].email;
      if j > 0 {
        assert r[j].email == kept[j - 1].email;
      }
    }
  }

  predicate RolesAccepted(rows: seq<CommunityMember>) {
    forall k | 0 <= k < |rows| :: rows[k].role in MemberRoles
  }

  function InvitesOf(input: CreateInput): seq<Invite> {
    if input.members.Some? then input.members.value else []
  }

  /** The community row: trimmed name and description, `logo || ''`, the creator's id. */
  function NewCommunity(input: CreateInput, user: User, id: nat, now: nat): Community {
    Community(id, Trim(input.name), Trim(input.description),
              if input.logo.Some? then input.logo.value else "", user.id, now, now)
  }

  /** `!user?.id || !user?.email` fails. */
  predicate Authenticated(user: Option<User>) {
    user.Some? && user.value.id != "" && user.value.email.Some? && user.value.email.value != ""
  }

  lemma CommitPreservesWellFormed(st: Store, c: Community, rows: seq<CommunityMember>)
    requires WellFormed(st)
    requires c.id == |st.communities| && c.createdAt == c.updatedAt == st.clock
    requires forall k | 0 <= k < |rows| :: rows[k].communityId == c.id && rows[k].joinedAt == st.clock + 1 + k
    ensures WellFormed(Store(st.communities + [c], st.members + rows, st.clock + 1 + |rows|))
  {
    var ms := st.members + rows;
    forall j, k | 0 <= j < k < |ms|
      ensures ms[j].joinedAt < ms[k].joinedAt
    {
      if k < |st.members| {
      } else if j < |st.members| {
        assert ms[k] == rows[k - |st.members|];
      } else {
        assert ms[j] == rows[j - |st.members|] && ms[k] == rows[k - |st.members|];
      }
    }
  }

  /** The checks `createCommunity` makes before its transaction, in order: the message of the
      first that fails, or None. A lookup that raises is caught as the generic failure. */
  function CreateCheck(st: Store, input: CreateInput, user: Option<User>, fmt: FormatChecks): (r: Option<string>)
    ensures r.None? ==>
              && Accepts(input, fmt) && Authenticated(user)
              && IsUserInAnyCommunity(st, user.value.id) == Returned(false)
              && IsCommunityNameTaken(st, input.name) == Returned(false)
  {
    match FirstValidationError(input, fmt)
    case Some(message) => Some(message)
    case None =>
      if !Authenticated(user) then Some(AuthFailed)
      else
        match IsUserInAnyCommunity(st, user.value.id)
        case Threw(_) => Some(CreateFailed)
        case Returned(inCommunity) =>
          if inCommunity then Some(AlreadyMember)
          else
            match IsCommunityNameTaken(st, input.name)
            case Threw(_) => Some(CreateFailed)
            case Returned(taken) => if taken then Some(NameExists) else None
  }

  /** The transaction of `createCommunity` for an authenticated user whose checks passed:
      the community and all its rows are inserted, or nothing is. `txFault` stands for an
      unexpected store failure inside the transaction. */
  function CreateTransaction(st: Store, input: CreateInput, u: User, txFault: bool): (r: (ActionResponse, Store))
    requires u.email.Some?
    ensures r.0.Failed? ==> r.1 == st && r.0.error == CreateFailed
    ensures r.0.Succeeded? ==> r.0.message == Created
    ensures r.0.Succeeded? ==>
              && !txFault
              && r.0.data == NewCommunity(input, u, |st.communities|, st.clock)
              && var rows := Roster(u.email.value, InvitesOf(input), |st.communities|, st.clock + 1);
                 && RolesAccepted(rows)
                 && r.1 == Store(st.communities + [r.0.data], st.members + rows, st.clock + 1 + |rows|)
    ensures WellFormed(st) ==> WellFormed(r.1)
  {
    var c := NewCommunity(input, u, |st.communities|, st.clock);
    var rows := Roster(u.email.value, InvitesOf(input), c.id, st.clock + 1);
    RosterShape(u.email.value, InvitesOf(input), c.id, st.clock + 1);
    if txFault || !RolesAccepted(rows) then (Failed(CreateFailed), st)
    else
      var st' := Store(st.communities + [c], st.members + rows, st.clock + 1 + |rows|);
      assert WellFormed(st) ==> WellFormed(st') by {
        if WellFormed(st) { CommitPreservesWellFormed(st, c, rows); }
      }
      (Succeeded(c, Created), st')
  }

  /** The whole of `createCommunity`: its response and the store afterwards. */
  function CreateOutcome(st: Store, input: CreateInput, user: Option<User>, fmt: FormatChecks, txFault: bool)
    : (r: (ActionResponse, Store))
    ensures r.0.Failed? ==> r.1 == st
    ensures CreateCheck(st, input, user, fmt).None? && r.0.Failed? ==> r.0 == Failed(CreateFailed)
    ensures r.0.Succeeded? ==> r.0.message == Created
    ensures r.0.Succeeded? ==>
              && Accepts(input, fmt) && Authenticated(user) && !txFault
              && IsUserInAnyCommunity(st, user.value.id) == Returned(false)
              && IsCommunityNameTaken(st, input.name) == Returned(false)
              && r.0.data == NewCommunity(input, user.value, |st.communities|, st.clock)
              && var rows := Roster(user.value.email.value, InvitesOf(input), |st.communities|, st.clock + 1);
                 && RolesAccepted(rows)
                 && r.1 == Store(st.communities + [r.0.data], st.members + rows, st.clock + 1 + |rows|)
    ensures WellFormed(st) ==> WellFormed(r.1)
  {
    match CreateCheck(st, input, user, fmt)
    case Some(message) => (Failed(message), st)
    case None => CreateTransaction(st, input, user.value, txFault)
  }

  /** Each failing check gives its own message, in the order the checks run, and the store
      is left as it was. */
  lemma CreateFailureMessages(st: Store, input: CreateInput, user: Option<User>, fmt: FormatChecks, txFault: bool)
    ensures var r := CreateOutcome(st, input, user, fmt, txFault);
      && (!Accepts(input, fmt) ==> r == (Failed(FirstValidationError(input, fmt).value), st))
      && (Accepts(input, fmt) && !Authenticated(user) ==> r == (Failed(AuthFailed), st))
      && (Accepts(input, fmt) && Authenticated(user) &&
          (exists k | 0 <= k < |st.members| :: MembershipMatches(st.communities, st.members[k], user.value.id))
          ==> r == (Failed(AlreadyMember), st))
      && (Accepts(input, fmt) && Authenticated(user) &&
          (forall k | 0 <= k < |st.members| :: !MembershipMatches(st.communities, st.members[k], user.value.id)) &&
          (exists i | 0 <= i < |st.communities| :: EqualsIgnoringCase(st.communities[i].name, input.name))
          ==> r == (Failed(NameExists), st))
  {
  }

  /** Each kept invite gets a row under its own email, and no row has another email. */
  lemma InviteRowsEmails(kept: seq<Invite>, cid: nat, t: nat)
    ensures (set m | m in InviteRows(kept, cid, t) :: m.email) == Emails(kept)
  {
    var rows := InviteRows(kept, cid, t);
    forall e | e in (set m | m in rows :: m.email)
      ensures e in Emails(kept)
    {
      var k :| 0 <= k < |rows| && rows[k].email == e;
      assert kept[k] in kept;
    }
    forall e | e in Emails(kept)
      ensures e in (set m | m in rows :: m.email)
    {
      var k :| 0 <= k < |kept| && kept[k].email == e;
      assert rows[k] in rows;
    }
  }

  /** The roster names the creator and every invited email, and nobody else. */
  lemma RosterEmails(email: string, invites: seq<Invite>, cid: nat, t: nat)
    ensures (set m | m in Roster(email, invites, cid, t) :: m.email) == {email} + Emails(invites)
  {
    var rows := InviteRows(Dedup({email}, invites), cid, t + 1);
    var leader := CommunityMember(email, Leader, cid, t);
    InviteRowsEmails(Dedup({email}, invites), cid, t + 1);
    DedupEmails({email}, invites);
    var roster := Roster(email, invites, cid, t);
    assert roster == [leader] + rows;
    var lhs := set m | m in roster :: m.email;
    var rowEmails := set m | m in rows :: m.email;
    assert lhs == {email} + rowEmails by {
      forall e | e in lhs ensures e in {email} + rowEmails {
        var m :| m in roster && m.email == e;
        assert m == leader || m in rows;
      }
      forall e | e in {email} + rowEmails ensures e in lhs {
        if e == email {
          assert leader in roster;
        } else {
          var m :| m in rows && m.email == e;
          assert m in roster;
        }
      }
    }
  }

  lemma UpperOfDesignations()
    ensures InviteRole("member") == "MEMBER"
    ensures InviteRole("elder") == "ELDER"
    ensures InviteRole("leader") == "LEADER"
    ensures InviteRole("co-leader") == "CO-LEADER"
  {
    assert InviteRole("member") == "MEMBER";
    assert InviteRole("elder") == "ELDER";
    assert InviteRole("leader") == "LEADER";
    assert InviteRole("co-leader") == "CO-LEADER";
  }

  /** The upper-case cast yields a MemberRole for every designation but "co-leader",
      which becomes "CO-LEADER" where the enum has CO_LEADER. */
  lemma RoleCastAccepts(d: string)
    requires d in Designations
    ensures InviteRole(d) in MemberRoles <==> d != "co-leader"
  {
    UpperOfDesignations();
    assert "CO-LEADER"[2] != "CO_LEADER"[2];
  }

  /** A kept invitee designated "co-leader" makes the bulk insert fail, so the whole creation
      fails with the generic message and the store is untouched. */
  lemma CoLeaderInviteAbortsCreation(st: Store, input: CreateInput, user: Option<User>, fmt: FormatChecks, txFault: bool, k: nat)
    requires Authenticated(user)
    requires k < |Dedup({user.value.email.value}, InvitesOf(input))|
    requires Dedup({user.value.email.value}, InvitesOf(input))[k].designation == "co-leader"
    ensures CreateOutcome(st, input, user, fmt, txFault).0.Failed?
    ensures CreateOutcome(st, input, user, fmt, txFault).1 == st
  {
    RosterRejectsCoLeader(user.value.email.value, InvitesOf(input), |st.communities|, st.clock + 1, k);
    TransactionRejects(st, input, user.value, txFault);
  }

  /** A roster with a role outside the enum fails the transaction and leaves the store as it was. */
  lemma TransactionRejects(st: Store, input: CreateInput, u: User, txFault: bool)
    requires u.email.Some?
    requires !RolesAccepted(Roster(u.email.value, InvitesOf(input), |st.communities|, st.clock + 1))
    ensures CreateTransaction(st, input, u, txFault) == (Failed(CreateFailed), st)
  {
  }

  lemma RosterRejectsCoLeader(email: string, invites: seq<Invite>, cid: nat, t: nat, k: nat)
    requires k < |Dedup({email}, invites)| && Dedup({email}, invites)[k].designation == "co-leader"
    ensures !RolesAccepted(Roster(email, invites, cid, t))
  {
    var rows := Roster(email, invites, cid, t);
    assert rows[k + 1].role == InviteRole("co-leader");
    UpperOfDesignations();
    assert "CO-LEADER"[2] != "CO_LEADER"[2];
  }

  /** An invitee designated "leader" is inserted as a second LEADER beside the creator. */
  lemma LeaderInviteAddsSecondLeader(email: string, invites: seq<Invite>, cid: nat, t: nat, k: nat)
    requires k < |Dedup({email}, invites)| && Dedup({email}, invites)[k].designation == "leader"
    ensures var r := Roster(email, invites, cid, t);
      r[0].role == Leader && r[k + 1].role == Leader && r[k + 1].email != email
  {
    UpperOfDesignations();
    RosterShape(email, invites, cid, t);
  }

  /** After a successful creation the creator's id finds a community. */
  lemma CreatorFindsCommunity(st: Store, input: CreateInput, user: Option<User>, fmt: FormatChecks, txFault: bool)
    requires CreateOutcome(st, input, user, fmt, txFault).0.Succeeded?
    ensures var st' := CreateOutcome(st, input, user, fmt, txFault).1;
      GetUserCommunity(st', user.value.id).Returned? && GetUserCommunity(st', user.value.id).value.Some?
  {
    var st' := CreateOutcome(st, input, user, fmt, txFault).1;
    assert st'.communities[|st.communities|].creatorId == user.value.id;
    assert Involves(st'.members, st'.communities[|st.communities|], user.value.id);
  }

  /** The converse of CreateOutcome's success clause: when every check passes and every row
      is accepted, a transaction without a fault commits. */
  lemma CreateSucceedsWhenChecksPass(st: Store, input: CreateInput, user: Option<User>, fmt: FormatChecks)
    requires Accepts(input, fmt) && Authenticated(user)
    requires forall k | 0 <= k < |st.members| :: !MembershipMatches(st.communities, st.members[k], user.value.id)
    requires forall i | 0 <= i < |st.communities| :: !EqualsIgnoringCase(st.communities[i].name, input.name)
    requires RolesAccepted(Roster(user.value.email.value, InvitesOf(input), |st.communities|, st.clock + 1))
    ensures CreateOutcome(st, input, user, fmt, false).0.Succeeded?
  {
    ChecksPass(st, input, user, fmt);
    TransactionCommits(st, input, user.value);
  }

  lemma ChecksPass(st: Store, input: CreateInput, user: Option<User>, fmt: FormatChecks)
    requires Accepts(input, fmt) && Authenticated(user)
    requires forall k | 0 <= k < |st.members| :: !MembershipMatches(st.communities, st.members[k], user.value.id)
    requires forall i | 0 <= i < |st.communities| :: !EqualsIgnoringCase(st.communities[i].name, input.name)
    ensures CreateCheck(st, input, user, fmt) == None
  {
    assert FirstValidationError(input, fmt).None?;
    assert IsUserInAnyCommunity(st, user.value.id) == Returned(false);
    assert IsCommunityNameTaken(st, input.name) == Returned(false);
  }

  /** A roster whose roles are all in the enum commits when the store does not fail. */
  lemma TransactionCommits(st: Store, input: CreateInput, u: User)
    requires u.email.Some?
    requires RolesAccepted(Roster(u.email.value, InvitesOf(input), |st.communities|, st.clock + 1))
    ensures CreateTransaction(st, input, u, false).0.Succeeded?
  {
  }

  /** A user who joined as an invitee is not "in a community" for the check, which looks for
      their account id among emails: they can create a second community of their own. */
  lemma InviteeCanCreateSecondCommunity(fmt: FormatChecks)
    ensures var st := Store(
              [Community(0, "Alpha", "The first community", "", "u1", 0, 0)],
              [CommunityMember("a@example.com", Leader, 0, 1), CommunityMember("b@example.com", "MEMBER", 0, 2)],
              3);
            var user := Some(User("u2", Some("b@example.com")));
            var r := CreateOutcome(st, CreateInput("Beta", "The second community", None, None), user, fmt, false);
            && r.0.Succeeded?
            && r.1.members[1] == CommunityMember("b@example.com", "MEMBER", 0, 2)
            && r.1.members[2] == CommunityMember("b@example.com", Leader, 1, 4)
  {
    var st := Store(
      [Community(0, "Alpha", "The first community", "", "u1", 0, 0)],
      [CommunityMember("a@example.com", Leader, 0, 1), CommunityMember("b@example.com", "MEMBER", 0, 2)],
      3);
    var input := CreateInput("Beta", "The second community", None, None);
    var user := Some(User("u2", Some("b@example.com")));
    assert Accepts(input, fmt) by {
      assert MatchesNamePattern("Beta");
    }
    assert |ToLower("Alpha")| != |ToLower("Beta")|;
    var rows := Roster("b@example.com", [], 1, 4);
    assert rows == [CommunityMember("b@example.com", Leader, 1, 4)] by {
      assert Dedup({"b@example.com"}, []) == [];
    }
    CreateSucceedsWhenChecksPass(st, input, user, fmt);
  }

  /** The name check runs on the untrimmed name and the row gets the trimmed one, so
      "Alpha " passes beside an existing "Alpha" and a second "Alpha" is stored. */
  lemma UntrimmedNameCheckAdmitsDuplicate(fmt: FormatChecks)
    ensures var st := Store([Community(0, "Alpha", "The first community", "", "u1", 0, 0)],
                            [CommunityMember("a@example.com", Leader, 0, 1)], 2);
            var r := CreateOutcome(st, CreateInput("Alpha ", "Another community", None, None),
                                   Some(User("u2", Some("c@example.com"))), fmt, false);
            && r.0.Succeeded?
            && r.1.communities[0].name == r.1.communities[1].name == "Alpha"
  {
    var st := Store([Community(0, "Alpha", "The first community", "", "u1", 0, 0)],
                    [CommunityMember("a@example.com", Leader, 0, 1)], 2);
    var input := CreateInput("Alpha ", "Another community", None, None);
    var user := Some(User("u2", Some("c@example.com")));
    assert Accepts(input, fmt) by {
      assert MatchesNamePattern("Alpha ");
    }
    assert |ToLower("Alpha")| != |ToLower("Alpha ")|;
    var rows := Roster("c@example.com", [], 1, 3);
    assert rows == [CommunityMember("c@example.com", Leader, 1, 3)] by {
      assert Dedup({"c@example.com"}, []) == [];
    }
    CreateSucceedsWhenChecksPass(st, input, user, fmt);
    TrailingSpaceTrimmed();
  }

  lemma TrailingSpaceTrimmed()
    ensures Trim("Alpha ") == "Alpha"
  {
    assert TrimStart("Alpha ") == "Alpha ";
    assert "Alpha "[..5] == "Alpha";
  }

  /** A name of three spaces satisfies the schema, and the community is stored with an empty name. */
  lemma BlankNameStoredEmpty(fmt: FormatChecks, u: User)
    ensures var input := CreateInput("   ", "A blank-named community", None, None);
            FirstValidationError(input, fmt).None? && NewCommunity(input, u, 0, 0).name == ""
  {
    assert MatchesNamePattern("   ");
    assert "   "[1..] == "  " && "  "[1..] == " " && " "[1..] == "";
    assert TrimStart("   ") == "";
  }

  // ---------------------------------------------------------------------------------------
  // updateCommunity

  /** A row that grants the update: of this community, LEADER or CO_LEADER, and with the
      user's email. An undefined email adds no condition on the row's email. */
  predicate IsLeaderRowFor(m: CommunityMember, cid: nat, email: Option<string>) {
    && m.communityId == cid
    && (email.None? || m.email == email.value)
    && (m.role == Leader || m.role == CoLeader)
  }

  function AnyLeaderRow(ms: seq<CommunityMember>, cid: nat, email: Option<string>): (r: bool)
    ensures r <==> exists k | 0 <= k < |ms| :: IsLeaderRowFor(ms[k], cid, email)
  {
    if ms == [] then false
    else
      assert forall k | 1 <= k < |ms| :: ms[k] == ms[1..][k - 1];
      IsLeaderRowFor(ms[0], cid, email) || AnyLeaderRow(ms[1..], cid, email)
  }

  /** The permission query: the community exists and the user created it or leads it. */
  function MayUpdate(st: Store, cid: nat, user: User): (r: bool)
    ensures r <==>
              && cid < |st.communities|
              && (|| st.communities[cid].creatorId == user.id
                  || exists k | 0 <= k < |st.members| :: IsLeaderRowFor(st.members[k], cid, user.email))
  {
    cid < |st.communities| &&
    (st.communities[cid].creatorId == user.id || AnyLeaderRow(st.members, cid, user.email))
  }

  /** JavaScript truthiness of an optional string: present and not empty. */
  predicate Truthy(s: Option<string>) {
    s.Some? && s.value != ""
  }

  /** The `data` of `db.community.update`: truthy fields only, and always a fresh `updatedAt`. */
  function ApplyUpdate(c: Community, data: UpdateInput, now: nat): Community {
    c.(name := if Truthy(data.name) then Trim(data.name.value) else c.name,
       description := if Truthy(data.description) then Trim(data.description.value) else c.description,
       logo := if Truthy(data.logo) then data.logo.value else c.logo,
       updatedAt := now)
  }

  /** The whole of `updateCommunity`. `fault` stands for the update statement failing. */
  function UpdateOutcome(st: Store, cid: nat, data: UpdateInput, user: Option<User>, fault: bool)
    : (r: (ActionResponse, Store))
    ensures r.0.Failed? ==> r.1 == st
    ensures r.0.Succeeded? <==>
              user.Some? && user.value.id != "" && MayUpdate(st, cid, user.value) && !fault
    ensures user.None? || user.value.id == "" ==> r.0 == Failed(AuthFailed)
    ensures user.Some? && user.value.id != "" && !MayUpdate(st, cid, user.value) ==>
              r.0 == Failed(PermissionDenied)
    ensures user.Some? && user.value.id != "" && MayUpdate(st, cid, user.value) && fault ==>
              r.0 == Failed(UpdateFailed)
    ensures r.0.Succeeded? ==> r.0.message == Updated
    ensures r.0.Succeeded? ==>
              && cid < |st.communities|
              && r.0.data == ApplyUpdate(st.communities[cid], data, st.clock)
              && r.1.members == st.members
              && |r.1.communities| == |st.communities|
              && r.1.communities[cid] == r.0.data
              && (forall i | 0 <= i < |st.communities| && i != cid :: r.1.communities[i] == st.communities[i])
    ensures WellFormed(st) ==> WellFormed(r.1)
  {
    if user.None? || user.value.id == "" then (Failed(AuthFailed), st)
    else if !MayUpdate(st, cid, user.value) then (Failed(PermissionDenied), st)
    else if fault then (Failed(UpdateFailed), st)
    else
      var c := ApplyUpdate(st.communities[cid], data, st.clock);
      (Succeeded(c, Updated), Store(st.communities[cid := c], st.members, st.clock + 1))
  }

  /** The creator of a community keeps the right to update it, whatever their rows say. */
  lemma CreatorMayUpdate(st: Store, cid: nat, data: UpdateInput, user: User)
    requires cid < |st.communities| && st.communities[cid].creatorId == user.id && user.id != ""
    ensures UpdateOutcome(st, cid, data, Some(user), false).0 == Succeeded(ApplyUpdate(st.communities[cid], data, st.clock), Updated)
  {
  }

  /** An ordinary member or elder who did not create the community is refused. */
  lemma MemberRoleCannotUpdate(st: Store, cid: nat, data: UpdateInput, user: User, fault: bool)
    requires user.id != "" && user.email.Some?
    requires cid < |st.communities| && st.communities[cid].creatorId != user.id
    requires forall k | 0 <= k < |st.members| && st.members[k].communityId == cid && st.members[k].email == user.email.value ::
               st.members[k].role in {"MEMBER", "ELDER"}
    ensures UpdateOutcome(st, cid, data, Some(user), fault) == (Failed(PermissionDenied), st)
  {
    forall k | 0 <= k < |st.members|
      ensures !IsLeaderRowFor(st.members[k], cid, user.email)
    {
      if st.members[k].communityId == cid && st.members[k].email == user.email.value {
        assert st.members[k].role[0] in {'M', 'E'};
      }
    }
  }

  /** With no email on the session the leader filter loses its email condition: right after
      a community is created, any signed-in user without an email may update it, through the
      creator's LEADER row. */
  lemma MissingEmailMayUpdateNewCommunity(st: Store, input: CreateInput, creator: Option<User>, fmt: FormatChecks,
                                          data: UpdateInput, other: User)
    requires CreateOutcome(st, input, creator, fmt, false).0.Succeeded?
    requires other.id != "" && other.email.None?
    ensures var st' := CreateOutcome(st, input, creator, fmt, false).1;
            UpdateOutcome(st', |st.communities|, data, Some(other), false).0.Succeeded?
  {
    var r := CreateOutcome(st, input, creator, fmt, false);
    var rows := Roster(creator.value.email.value, InvitesOf(input), |st.communities|, st.clock + 1);
    RosterShape(creator.value.email.value, InvitesOf(input), |st.communities|, st.clock + 1);
    assert r.1.members[|st.members|] == rows[0];
    assert IsLeaderRowFor(r.1.members[|st.members|], |st.communities|, other.email);
  }

  /** The update does not re-run the schema: a name the create form refuses is stored. */
  lemma UpdateSkipsValidation(c: Community, now: nat, fmt: FormatChecks)
    ensures var d := ApplyUpdate(c, UpdateInput(Some(" a! "), None, None), now);
            && d.name == "a!"
            && !Accepts(CreateInput(d.name, c.description, None, None), fmt)
  {
    SpacedNameTrimmed();
    assert !IsNameChar('!');
  }

  lemma SpacedNameTrimmed()
    ensures Trim(" a! ") == "a!"
  {
    assert TrimStart("a! ") == "a! ";
    assert TrimStart(" a! ") == "a! ";
    assert "a! "[..2] == "a!";
    assert TrimEnd("a!") == "a!";
  }

  /** Fields left out, or given as empty strings, keep their values; only the timestamp moves. */
  lemma EmptyUpdateOnlyTouchesTimestamp(c: Community, data: UpdateInput, now: nat)
    requires !Truthy(data.name) && !Truthy(data.description) && !Truthy(data.logo)
    ensures ApplyUpdate(c, data, now) == c.(updatedAt := now)
  {
  }

  /** One turn of the `memberData` loop, on the specification side. */
  lemma MemberDataStep(email: string, invites: seq<Invite>, i: nat, seen: set<string>, kept: seq<Invite>)
    requires i < |invites|
    requires seen == {email} + Emails(invites[..i])
    requires kept == Dedup({email}, invites[..i])
    ensures seen + {invites[i].email} == {email} + Emails(invites[..i + 1])
    ensures invites[i].email in seen ==> Dedup({email}, invites[..i + 1]) == kept
    ensures invites[i].email !in seen ==> Dedup({email}, invites[..i + 1]) == kept + [invites[i]]
  {
    assert invites[..i + 1] == invites[..i] + [invites[i]];
    DedupSnoc({email}, invites[..i], invites[i]);
    EmailsSnoc(invites[..i], invites[i]);
  }

  lemma InviteRowsSnoc(kept: seq<Invite>, x: Invite, cid: nat, t: nat)
    ensures InviteRows(kept + [x], cid, t) ==
            InviteRows(kept, cid, t) + [CommunityMember(x.email, InviteRole(x.designation), cid, t + |kept|)]
  {
  }

  /** The loop that builds `memberData`: the creator first, then each invitee whose email
      the `memberEmails` set has not seen yet, each row stamped as it is built. */
  method BuildMemberData(email: string, invites: seq<Invite>, cid: nat, t: nat)
    returns (memberData: seq<CommunityMember>)
    ensures memberData == Roster(email, invites, cid, t)
  {
    var memberEmails: set<string> := {email};
    var leaderRow := CommunityMember(email, Leader, cid, t);
    memberData := [leaderRow];
    var now := t + 1;
    ghost var kept: seq<Invite> := [];
    for i := 0 to |invites|
      invariant memberEmails == {email} + Emails(invites[..i])
      invariant kept == Dedup({email}, invites[..i])
      invariant memberData == [leaderRow] + InviteRows(kept, cid, t + 1)
      invariant now == t + 1 + |kept|
    {
      var member := invites[i];
      MemberDataStep(email, invites, i, memberEmails, kept);
      if member.email !in memberEmails {
        memberEmails := memberEmails + {member.email};
        var row := CommunityMember(member.email, InviteRole(member.designation), cid, now);
        InviteRowsSnoc(kept, member, cid, t + 1);
        memberData := memberData + [row];
        kept := kept + [member];
        now := now + 1;
      }
    }
    assert invites[..|invites|] == invites;
    assert kept == Dedup({email}, invites);
    assert memberData == [leaderRow] + InviteRows(Dedup({email}, invites), cid, t + 1);
  }

  // ---------------------------------------------------------------------------------------
  // The store as the actions mutate it

  class Db {
    var communities: seq<Community>
    var members: seq<CommunityMember>
    var clock: nat

    function State(): Store
      reads this
    {
      Store(communities, members, clock)
    }

    ghost predicate Valid()
      reads this
    {
      WellFormed(State())
    }

    constructor ()
      ensures Valid() && State() == Store([], [], 0)
    {
      communities, members, clock := [], [], 0;
    }

    /** `createCommunity`: checks, then the transaction that builds `memberData` with the
        `memberEmails` set and inserts the community and its rows, or nothing. */
    method CreateCommunity(input: CreateInput, user: Option<User>, fmt: FormatChecks, txFault: bool)
      returns (resp: ActionResponse)
      requires Valid()
      modifies this
      ensures Valid()
      ensures (resp, State()) == CreateOutcome(old(State()), input, user, fmt, txFault)
    {
      ghost var st := State();
      var validation := FirstValidationError(input, fmt);
      if validation.Some? {
        return Failed(validation.value);
      }
      if !Authenticated(user) {
        return Failed(AuthFailed);
      }
      var u := user.value;
      var inCommunity := IsUserInAnyCommunity(State(), u.id);
      if inCommunity.Threw? {
        return Failed(CreateFailed);
      }
      if inCommunity.value {
        return Failed(AlreadyMember);
      }
      var nameTaken := IsCommunityNameTaken(State(), input.name);
      if nameTaken.Threw? {
        return Failed(CreateFailed);
      }
      if nameTaken.value {
        return Failed(NameExists);
      }
      assert CreateCheck(st, input, user, fmt).None?;
      resp := Transaction(input, u, txFault);
    }

    /** The transaction: the community row, the `memberData` loop and the bulk insert;
        nothing reaches the store unless every row is accepted. */
    method Transaction(input: CreateInput, u: User, txFault: bool) returns (resp: ActionResponse)
      requires Valid() && u.email.Some?
      modifies this
      ensures Valid()
      ensures (resp, State()) == CreateTransaction(old(State()), input, u, txFault)
    {
      ghost var st := State();
      var community := NewCommunity(input, u, |communities|, clock);
      var memberData := BuildMemberData(u.email.value, InvitesOf(input), community.id, clock + 1);
      ghost var expected := CreateTransaction(st, input, u, txFault);
      if txFault || !RolesAccepted(memberData) {
        assert expected == (Failed(CreateFailed), st);
        return Failed(CreateFailed);
      }
      assert expected.0 == Succeeded(community, Created);
      RosterShape(u.email.value, InvitesOf(input), community.id, st.clock + 1);
      CommitPreservesWellFormed(st, community, memberData);
      communities := communities + [community];
      members := members + memberData;
      clock := clock + 1 + |memberData|;
      resp := Succeeded(community, Created);
      assert State() == expected.1;
    }

    /** `updateCommunity`: the permission query, then the in-place update of one record. */
    method UpdateCommunity(communityId: nat, data: UpdateInput, user: Option<User>, fault: bool)
      returns (resp: ActionResponse)
      requires Valid()
      modifies this
      ensures Valid()
      ensures (resp, State()) == UpdateOutcome(old(State()), communityId, data, user, fault)
    {
      if user.None? || user.value.id == "" {
        return Failed(AuthFailed);
      }
      if !MayUpdate(State(), communityId, user.value) {
        return Failed(PermissionDenied);
      }
      if fault {
        return Failed(UpdateFailed);
      }
      var updated := ApplyUpdate(communities[communityId], data, clock);
      communities := communities[communityId := updated];
      clock := clock + 1;
      resp := Succeeded(updated, Updated);
    }
  }
}
