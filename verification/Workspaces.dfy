// Membership and invitation tables of
// services/workspace/internal/service/workspace_service.go, each call one
// successful step. WorkspaceService.dfy holds the object that makes the writes.

module Workspaces {
  import opened Prelude

  type WorkspaceId = nat
  type UserId = nat
  type InviteToken = nat

  datatype Role = Guest | Member | Editor | Admin | Owner

  datatype MemberKey = MemberKey(workspace: WorkspaceId, user: UserId)
  datatype InviteKey = InviteKey(workspace: WorkspaceId, token: InviteToken)

  datatype Invitation = Invitation(
    workspace: WorkspaceId,
    email: string,
    role: Role,
    invitedBy: UserId,
    expiresAt: int,
    accepted: bool)

  // workspace_members, workspace_members_by_user, workspace_invitations and
  // workspace_invitations_by_workspace.
  datatype Tables = Tables(
    members: map<MemberKey, Role>,
    membersByUser: map<MemberKey, Role>,
    invitations: map<InviteToken, Invitation>,
    byWorkspace: map<InviteKey, Invitation>)

  // The ids drawn so far, and the tokens accepted, in order.
  datatype State = State(
    tables: Tables,
    workspaces: set<WorkspaceId>,
    drawn: set<InviteToken>,
    accepted: seq<InviteToken>)

  const INVITE_LIFETIME := 7 * 24 * 60 * 60 * 1_000_000_000

  // ---------- roles ----------

  function Level(r: Role): nat {
    match r
    case Guest => 0
    case Member => 1
    case Editor => 2
    case Admin => 3
    case Owner => 4
  }

  /** Holders of members:invite, members:remove and members:promote. */
  predicate ManagesMembers(r: Role) {
    r == Admin || r == Owner
  }

  // ---------- strings.TrimSpace ----------

  predicate IsSpace(c: char) {
    var n := c as int;
    || 0x09 <= n <= 0x0D || n == 0x20 || n == 0x85 || n == 0xA0 || n == 0x1680
    || 0x2000 <= n <= 0x200A || n == 0x2028 || n == 0x2029 || n == 0x202F || n == 0x205F || n == 0x3000
  }

  function TrimLeft(s: string): string {
    if s != "" && IsSpace(s[0]) then TrimLeft(s[1..]) else s
  }

  function TrimRight(s: string): string {
    if s != "" && IsSpace(s[|s| - 1]) then TrimRight(s[..|s| - 1]) else s
  }

  function TrimSpace(s: string): string {
    TrimRight(TrimLeft(s))
  }

  /** An invitation anyone holding the link may use. */
  predicate IsLink(inv: Invitation) {
    TrimSpace(inv.email) == ""
  }

  // ---------- table writes ----------

  function PutMember(t: Tables, k: MemberKey, r: Role): Tables {
    t.(members := t.members[k := r], membersByUser := t.membersByUser[k := r])
  }

  function DeleteMember(t: Tables, k: MemberKey): Tables {
    t.(members := t.members - {k}, membersByUser := t.membersByUser - {k})
  }

  function Invalidate(t: Tables, ws: WorkspaceId, token: InviteToken): Tables {
    t.(byWorkspace := t.byWorkspace - {InviteKey(ws, token)}, invitations := t.invitations - {token})
  }

  /** What resetInviteCodeLinks deletes. */
  predicate Resets(t: Tables, ws: WorkspaceId, inviter: UserId, token: InviteToken) {
    InviteKey(ws, token) in t.byWorkspace
    && var inv := t.byWorkspace[InviteKey(ws, token)];
    inv.invitedBy == inviter && IsLink(inv) && !inv.accepted
  }

  function ResetLinks(t: Tables, ws: WorkspaceId, inviter: UserId): Tables {
    t.(invitations := map k | k in t.invitations && !Resets(t, ws, inviter, k) :: t.invitations[k],
       byWorkspace := map k | k in t.byWorkspace && !(k.workspace == ws && Resets(t, ws, inviter, k.token))
                      :: t.byWorkspace[k])
  }

  // ---------- the calls ----------

  datatype Error =
    | AccessDenied | OwnerCannotLeave | InvalidRole | InvitationNotFound | InvitationUsed | InvitationExpired

  datatype Result<+T> = Success(value: T) | Failure(error: Error)

  function CreateWorkspace(t: Tables, ws: WorkspaceId, owner: UserId): Tables {
    PutMember(t, MemberKey(ws, owner), Owner)
  }

  /** An UPDATE writes the row whether or not the user was a member. A missing role is the request's unspecified one. */
  function UpdateMemberRole(t: Tables, k: MemberKey, requester: UserId, role: Option<Role>): (Tables, Result<Role>) {
    var actor := MemberKey(k.workspace, requester);
    if actor !in t.members || !ManagesMembers(t.members[actor]) then (t, Failure(AccessDenied))
    else if role.None? || Level(t.members[actor]) <= Level(role.value) then (t, Failure(AccessDenied))
    else (PutMember(t, k, role.value), Success(role.value))
  }

  function RemoveMember(t: Tables, k: MemberKey, requester: UserId): (Tables, Result<()>) {
    var actor := MemberKey(k.workspace, requester);
    if actor !in t.members then (t, Failure(AccessDenied))
    else if k.user == requester && t.members[actor] == Owner then (t, Failure(OwnerCannotLeave))
    else if k.user != requester && !ManagesMembers(t.members[actor]) then (t, Failure(AccessDenied))
    else (DeleteMember(t, k), Success(()))
  }

  function InviteMember(t: Tables, ws: WorkspaceId, inviter: UserId, email: string, role: Option<Role>,
                        token: InviteToken, now: int): (Tables, Result<InviteToken>)
  {
    var actor := MemberKey(ws, inviter);
    if actor !in t.members || !ManagesMembers(t.members[actor]) then (t, Failure(AccessDenied))
    else if role.None? then (t, Failure(InvalidRole))
    else
      var clean := TrimSpace(email);
      var t1 := if clean == "" then ResetLinks(t, ws, inviter) else t;
      var inv := Invitation(ws, clean, role.value, inviter, now + INVITE_LIFETIME, false);
      (t1.(invitations := t1.invitations[token := inv],
           byWorkspace := t1.byWorkspace[InviteKey(ws, token) := inv]),
       Success(token))
  }

  function AcceptInvitation(t: Tables, token: InviteToken, user: UserId, now: int): (Tables, Result<Role>) {
    if token !in t.invitations then (t, Failure(InvitationNotFound))
    else
      var inv := t.invitations[token];
      if inv.accepted then (t, Failure(InvitationUsed))
      else if now > inv.expiresAt then (t, Failure(InvitationExpired))
      else (Invalidate(PutMember(t, MemberKey(inv.workspace, user), inv.role), inv.workspace, token),
            Success(inv.role))
  }

  function RejectInvitation(t: Tables, token: InviteToken): (Tables, Result<()>) {
    if token !in t.invitations then (t, Failure(InvitationNotFound))
    else if t.invitations[token].accepted then (t, Failure(InvitationUsed))
    else (Invalidate(t, t.invitations[token].workspace, token), Success(()))
  }

  /** One user's rows of a membership table, and the same as roles by workspace. */
  function RowsOf(rows: map<MemberKey, Role>, user: UserId): map<MemberKey, Role> {
    map k | k in rows && k.user == user :: rows[k]
  }

  function RolesOf(rows: map<MemberKey, Role>, user: UserId): map<WorkspaceId, Role> {
    map k | k in rows && k.user == user :: k.workspace := rows[k]
  }

  lemma RolesOfAt(rows: map<MemberKey, Role>, user: UserId)
    ensures forall ws :: ws in RolesOf(rows, user) <==> MemberKey(ws, user) in rows
    ensures forall ws :: ws in RolesOf(rows, user) ==> RolesOf(rows, user)[ws] == rows[MemberKey(ws, user)]
  {
    forall ws | MemberKey(ws, user) in rows
      ensures ws in RolesOf(rows, user)
    {
      assert MemberKey(ws, user).workspace == ws;
    }
  }

  /** The user's workspaces and roles: the by-user table, then what only the member table has. */
  function Listing(t: Tables, user: UserId): map<WorkspaceId, Role> {
    RolesOf(t.members, user) + RolesOf(t.membersByUser, user)
  }

  /** ListMyWorkspaces copies the rows the by-user table lacks. */
  function Backfill(t: Tables, user: UserId): Tables {
    t.(membersByUser := RowsOf(t.members, user) + t.membersByUser)
  }

  datatype Event =
    | Create(workspace: WorkspaceId, owner: UserId)
    | UpdateRole(key: MemberKey, requester: UserId, role: Option<Role>)
    | Remove(key: MemberKey, requester: UserId)
    | Invite(workspace: WorkspaceId, inviter: UserId, email: string, role: Option<Role>, token: InviteToken, now: int)
    | Accept(token: InviteToken, user: UserId, now: int)
    | Reject(token: InviteToken)
    | List(user: UserId)

  /** Workspace ids and invitation tokens are drawn fresh. */
  predicate Enabled(s: State, e: Event) {
    match e
    case Create(ws, _) => ws !in s.workspaces
    case Invite(_, _, _, _, token, _) => token !in s.drawn
    case _ => true
  }

  function Step(s: State, e: Event): State {
    if !Enabled(s, e) then s else
    match e
    case Create(ws, owner) => s.(tables := CreateWorkspace(s.tables, ws, owner), workspaces := s.workspaces + {ws})
    case UpdateRole(k, requester, role) => s.(tables := UpdateMemberRole(s.tables, k, requester, role).0)
    case Remove(k, requester) => s.(tables := RemoveMember(s.tables, k, requester).0)
    case Invite(ws, inviter, email, role, token, now) =>
      s.(tables := InviteMember(s.tables, ws, inviter, email, role, token, now).0, drawn := s.drawn + {token})
    case Accept(token, user, now) =>
      var (t, r) := AcceptInvitation(s.tables, token, user, now);
      s.(tables := t, accepted := if r.Success? then s.accepted + [token] else s.accepted)
    case Reject(token) => s.(tables := RejectInvitation(s.tables, token).0)
    case List(user) => s.(tables := Backfill(s.tables, user))
  }

  function Run(s: State, es: seq<Event>): State {
    if es == [] then s else Step(Run(s, es[..|es| - 1]), es[|es| - 1])
  }

  const EMPTY := State(Tables(map[], map[], map[], map[]), {}, {}, [])

  // ---------- who is let in, and who is not ----------

  /** A role is granted exactly by an admin, up to editor, or by an owner, up to admin; it is then that member's
      in both tables, and nothing else changes. */
  lemma UpdateOutcome(t: Tables, k: MemberKey, requester: UserId, role: Option<Role>)
    ensures var (t1, r) := UpdateMemberRole(t, k, requester, role);
            var actor := RoleIn(t, MemberKey(k.workspace, requester));
            && (r.Success? <==>
                  || (actor == Some(Admin) && (role == Some(Guest) || role == Some(Member) || role == Some(Editor)))
                  || (actor == Some(Owner) && role.Some? && role != Some(Owner)))
            && (r.Failure? ==> r == Failure(AccessDenied) && t1 == t)
            && (r.Success? ==>
                  && r == Success(role.value)
                  && t1 == t.(members := t.members[k := role.value], membersByUser := t.membersByUser[k := role.value]))
  {
  }

  /** A member who is not an owner may always leave; an admin or owner may remove anybody else. */
  lemma RemoveOutcome(t: Tables, k: MemberKey, requester: UserId)
    ensures var (t1, r) := RemoveMember(t, k, requester);
            var actor := RoleIn(t, MemberKey(k.workspace, requester));
            && (r == Success(()) <==>
                  || (k.user == requester && actor.Some? && actor != Some(Owner))
                  || (k.user != requester && (actor == Some(Admin) || actor == Some(Owner))))
            && (r == Failure(OwnerCannotLeave) <==> k.user == requester && actor == Some(Owner))
            && (r == Failure(AccessDenied) <==>
                  actor == None || (k.user != requester && actor != Some(Admin) && actor != Some(Owner)))
            && t1 == if r.Failure? then t
                     else t.(members := t.members - {k}, membersByUser := t.membersByUser - {k})
  {
  }

  /** An admin or owner may invite to any role; the invitation is good for seven days, in both tables. */
  lemma InviteOutcome(t: Tables, ws: WorkspaceId, inviter: UserId, email: string, role: Option<Role>,
                      token: InviteToken, now: int)
    ensures var (t1, r) := InviteMember(t, ws, inviter, email, role, token, now);
            var actor := RoleIn(t, MemberKey(ws, inviter));
            && (r == Failure(AccessDenied) <==> actor != Some(Admin) && actor != Some(Owner))
            && (r == Failure(InvalidRole) <==> (actor == Some(Admin) || actor == Some(Owner)) && role == None)
            && (r == Success(token) <==> (actor == Some(Admin) || actor == Some(Owner)) && role != None)
            && (r.Failure? ==> t1 == t)
            && t1.members == t.members && t1.membersByUser == t.membersByUser
            && (r.Success? ==>
                  && token in t1.invitations && InviteKey(ws, token) in t1.byWorkspace
                  && t1.invitations[token] == t1.byWorkspace[InviteKey(ws, token)]
                     == Invitation(ws, TrimSpace(email), role.value, inviter, now + 604_800_000_000_000, false))
  {
  }

  /** An open invitation is accepted up to its last instant, and makes a member; each refusal has its own case. */
  lemma AcceptOutcome(t: Tables, token: InviteToken, user: UserId, now: int)
    ensures var (t1, r) := AcceptInvitation(t, token, user, now);
            && (r == Failure(InvitationNotFound) <==> token !in t.invitations)
            && (r == Failure(InvitationUsed) <==> token in t.invitations && t.invitations[token].accepted)
            && (r == Failure(InvitationExpired) <==>
                  token in t.invitations && !t.invitations[token].accepted && t.invitations[token].expiresAt < now)
            && (r.Success? <==>
                  token in t.invitations && !t.invitations[token].accepted && now <= t.invitations[token].expiresAt)
            && (r.Failure? ==> t1 == t)
            && (r.Success? ==>
                  var inv := t.invitations[token];
                  var k := MemberKey(inv.workspace, user);
                  && r == Success(inv.role)
                  && t1 == Tables(t.members[k := inv.role], t.membersByUser[k := inv.role],
                                  t.invitations - {token}, t.byWorkspace - {InviteKey(inv.workspace, token)}))
  {
  }

  /** An invitation that is there and was not accepted can be rejected by anybody, at any time. */
  lemma RejectOutcome(t: Tables, token: InviteToken)
    ensures var (t1, r) := RejectInvitation(t, token);
            && (r == Failure(InvitationNotFound) <==> token !in t.invitations)
            && (r == Failure(InvitationUsed) <==> token in t.invitations && t.invitations[token].accepted)
            && (r == Success(()) <==> token in t.invitations && !t.invitations[token].accepted)
            && t1 == if r.Failure? then t
                     else t.(invitations := t.invitations - {token},
                             byWorkspace := t.byWorkspace - {InviteKey(t.invitations[token].workspace, token)})
  {
  }

  lemma {:induction false} OnlySpaces(s: string)
    requires forall c :: c in s ==> IsSpace(c)
    ensures TrimSpace(s) == ""
    decreases |s|
  {
    if s != "" {
      assert s[0] in s && forall c :: c in s[1..] ==> c in s;
      OnlySpaces(s[1..]);
    }
  }

  /** Cleaning takes spaces off both ends and nothing else. */
  lemma TrimTakesEnds(s: string) returns (before: string, after: string)
    ensures s == before + TrimSpace(s) + after
    ensures forall c :: c in before + after ==> IsSpace(c)
    ensures TrimSpace(s) != "" ==> !IsSpace(TrimSpace(s)[0]) && !IsSpace(TrimSpace(s)[|TrimSpace(s)| - 1])
  {
    before := LeftEnd(s);
    after := RightEnd(TrimLeft(s));
    TrimLeftTrims(s);
    if TrimLeft(s) != "" {
      TrimRightKeepsStart(TrimLeft(s));
    }
  }

  lemma {:induction false} LeftEnd(s: string) returns (before: string)
    ensures s == before + TrimLeft(s) && forall c :: c in before ==> IsSpace(c)
  {
    if s != "" && IsSpace(s[0]) {
      var rest := LeftEnd(s[1..]);
      before := [s[0]] + rest;
    } else {
      before := "";
    }
  }

  lemma {:induction false} RightEnd(s: string) returns (after: string)
    ensures s == TrimRight(s) + after && forall c :: c in after ==> IsSpace(c)
    ensures TrimRight(s) != "" ==> !IsSpace(TrimRight(s)[|TrimRight(s)| - 1])
  {
    if s != "" && IsSpace(s[|s| - 1]) {
      var rest := RightEnd(s[..|s| - 1]);
      after := rest + [s[|s| - 1]];
    } else {
      after := "";
    }
  }

  /** Of the printable ASCII characters only the blank is a space; so are tab, line feed and carriage return. */
  lemma AsciiSpaces(c: char)
    ensures ' ' <= c <= '~' ==> (IsSpace(c) <==> c == ' ')
    ensures c == '\t' || c == '\n' || c == '\r' ==> IsSpace(c)
  {
  }

  // ---------- what every run keeps ----------

  /** The two invitation tables hold the same rows, none of them accepted. */
  ghost predicate InvitationsAgree(t: Tables) {
    && (forall token :: token in t.invitations ==>
          var k := InviteKey(t.invitations[token].workspace, token);
          k in t.byWorkspace && t.byWorkspace[k] == t.invitations[token] && !t.invitations[token].accepted)
    && (forall k :: k in t.byWorkspace ==>
          k.token in t.invitations && t.invitations[k.token].workspace == k.workspace)
  }

  /** Each inviter has at most one outstanding link per workspace. */
  ghost predicate OneLinkEach(t: Tables) {
    forall x, y :: x in t.invitations && y in t.invitations && x != y ==> !RivalLinks(t.invitations[x], t.invitations[y])
  }

  predicate RivalLinks(a: Invitation, b: Invitation) {
    IsLink(a) && IsLink(b) && a.workspace == b.workspace && a.invitedBy == b.invitedBy
  }

  /** A token is accepted once, and is gone from then on. */
  ghost predicate AcceptedOnce(s: State) {
    && s.tables.invitations.Keys <= s.drawn
    && (forall token :: token in s.accepted ==> token in s.drawn && token !in s.tables.invitations)
    && (forall i, j :: 0 <= i < j < |s.accepted| ==> s.accepted[i] != s.accepted[j])
  }

  ghost predicate TablesAgree(s: State) {
    && s.tables.members == s.tables.membersByUser
    && InvitationsAgree(s.tables)
    && OneLinkEach(s.tables)
    && AcceptedOnce(s)
  }

  lemma {:induction false} TrimLeftTrims(s: string)
    ensures TrimLeft(s) != "" ==> !IsSpace(TrimLeft(s)[0])
  {
    if s != "" && IsSpace(s[0]) {
      TrimLeftTrims(s[1..]);
    }
  }

  lemma {:induction false} TrimRightKeepsStart(s: string)
    requires s != "" && !IsSpace(s[0])
    ensures TrimRight(s) != "" && TrimRight(s)[0] == s[0]
  {
    if IsSpace(s[|s| - 1]) {
      TrimRightKeepsStart(s[..|s| - 1]);
    }
  }

  /** A cleaned address that is not empty does not read as empty later. */
  lemma TrimTwice(s: string)
    ensures TrimSpace(TrimSpace(s)) == "" <==> TrimSpace(s) == ""
  {
    TrimLeftTrims(s);
    if TrimLeft(s) != "" {
      TrimRightKeepsStart(TrimLeft(s));
      var t := TrimSpace(s);
      assert TrimLeft(t) == t;
      TrimRightKeepsStart(t);
    }
  }

  lemma ResetAgrees(t: Tables, ws: WorkspaceId, inviter: UserId)
    requires InvitationsAgree(t) && OneLinkEach(t)
    ensures var t1 := ResetLinks(t, ws, inviter);
      && InvitationsAgree(t1) && OneLinkEach(t1)
      && forall x :: x in t1.invitations && t1.invitations[x].workspace == ws && t1.invitations[x].invitedBy == inviter
           ==> !IsLink(t1.invitations[x])
  {
    var t1 := ResetLinks(t, ws, inviter);
    forall x | x in t1.invitations && t1.invitations[x].workspace == ws && t1.invitations[x].invitedBy == inviter
      ensures !IsLink(t1.invitations[x])
    {
      assert InviteKey(ws, x) in t.byWorkspace;
    }
    forall k | k in t1.byWorkspace
      ensures k.token in t1.invitations
    {
      assert k.token in t.invitations && t.invitations[k.token].workspace == k.workspace;
    }
  }

  lemma NewInvitationAgrees(t: Tables, token: InviteToken, inv: Invitation)
    requires InvitationsAgree(t) && OneLinkEach(t) && token !in t.invitations && !inv.accepted
    requires forall x :: x in t.invitations ==> !RivalLinks(t.invitations[x], inv)
    ensures var t1 := t.(invitations := t.invitations[token := inv],
                         byWorkspace := t.byWorkspace[InviteKey(inv.workspace, token) := inv]);
            InvitationsAgree(t1) && OneLinkEach(t1)
  {
  }

  lemma InviteAgrees(t: Tables, ws: WorkspaceId, inviter: UserId, email: string, role: Option<Role>,
                     token: InviteToken, now: int)
    requires InvitationsAgree(t) && OneLinkEach(t) && token !in t.invitations
    ensures var t1 := InviteMember(t, ws, inviter, email, role, token, now).0;
            InvitationsAgree(t1) && OneLinkEach(t1)
  {
    TrimTwice(email);
    ResetAgrees(t, ws, inviter);
    if InviteMember(t, ws, inviter, email, role, token, now).1.Success? {
      var clean := TrimSpace(email);
      var inv := Invitation(ws, clean, role.value, inviter, now + INVITE_LIFETIME, false);
      NewInvitationAgrees(if clean == "" then ResetLinks(t, ws, inviter) else t, token, inv);
    }
  }

  lemma InvalidateAgrees(t: Tables, token: InviteToken)
    requires InvitationsAgree(t) && OneLinkEach(t) && token in t.invitations
    ensures var t1 := Invalidate(t, t.invitations[token].workspace, token);
            InvitationsAgree(t1) && OneLinkEach(t1)
  {
    var ws := t.invitations[token].workspace;
    var t1 := Invalidate(t, ws, token);
    forall k | k in t1.byWorkspace
      ensures k.token in t1.invitations && t1.invitations[k.token].workspace == k.workspace
    {
      assert k != InviteKey(ws, token);
    }
  }

  lemma CloseOnce(s: State, e: Event)
    requires AcceptedOnce(s) && (e.Accept? || e.Reject?)
    ensures AcceptedOnce(Step(s, e))
  {
  }

  lemma CloseAgrees(s: State, e: Event)
    requires TablesAgree(s) && (e.Accept? || e.Reject?)
    ensures TablesAgree(Step(s, e))
  {
    CloseOnce(s, e);
    if e.token in s.tables.invitations {
      InvalidateAgrees(s.tables, e.token);
    }
  }

  lemma NothingToBackfill(t: Tables, user: UserId)
    requires t.members == t.membersByUser
    ensures Backfill(t, user) == t
  {
    assert Backfill(t, user).membersByUser == t.membersByUser;
  }

  lemma TablesAgreeStep(s: State, e: Event)
    requires TablesAgree(s)
    ensures TablesAgree(Step(s, e))
  {
    if Enabled(s, e) {
      match e
      case Invite(ws, inviter, email, role, token, now) =>
        InviteAgrees(s.tables, ws, inviter, email, role, token, now);
      case List(user) => NothingToBackfill(s.tables, user);
      case Accept(_, _, _) => CloseAgrees(s, e);
      case Reject(_) => CloseAgrees(s, e);
      case _ =>
    }
  }

  /** In every run the two member tables give everyone the same role, the two invitation tables hold the same
      tokens, a token is accepted at most once, and each inviter has at most one outstanding link per workspace. */
  lemma {:induction false} WorkspaceTablesAgree(es: seq<Event>)
    ensures TablesAgree(Run(EMPTY, es))
    decreases |es|
  {
    if es != [] {
      WorkspaceTablesAgree(es[..|es| - 1]);
      TablesAgreeStep(Run(EMPTY, es[..|es| - 1]), es[|es| - 1]);
    }
  }

  function RoleIn(t: Tables, k: MemberKey): Option<Role> {
    if k in t.members then Some(t.members[k]) else None
  }

  predicate Manages(t: Tables, ws: WorkspaceId, user: UserId) {
    var role := RoleIn(t, MemberKey(ws, user));
    role.Some? && ManagesMembers(role.value)
  }

  /** The reasons a membership may go from `t` to having the role `after`. */
  predicate Entitled(t: Tables, e: Event, k: MemberKey, after: Option<Role>) {
    match e
    case Create(ws, owner) => k == MemberKey(ws, owner) && after == Some(Owner)
    case UpdateRole(key, requester, role) =>
      && k == key && after == role && role.Some?
      && Manages(t, k.workspace, requester)
      && Level(role.value) < Level(RoleIn(t, MemberKey(k.workspace, requester)).value)
    case Remove(key, requester) =>
      && k == key && after == None
      && (if requester == k.user then RoleIn(t, k) != Some(Owner) else Manages(t, k.workspace, requester))
    case Accept(token, user, now) =>
      && token in t.invitations
      && var inv := t.invitations[token];
         k == MemberKey(inv.workspace, user) && after == Some(inv.role) && now <= inv.expiresAt && !inv.accepted
    case _ => false
  }

  /** A membership changes only by creating its workspace, by a manager granting a role below their own, by a
      manager removing it or its holder, who is not an owner, leaving, or by accepting an open invitation. */
  lemma MembershipChangesEntitled(s: State, e: Event, k: MemberKey)
    requires TablesAgree(s)
    ensures RoleIn(Step(s, e).tables, k) != RoleIn(s.tables, k)
        ==> Enabled(s, e) && Entitled(s.tables, e, k, RoleIn(Step(s, e).tables, k))
  {
  }

  /** Every membership and every outstanding invitation is for a workspace that was created. */
  ghost predicate RowsHaveWorkspace(s: State) {
    && (forall k :: k in s.tables.members ==> k.workspace in s.workspaces)
    && (forall x :: x in s.tables.invitations ==> s.tables.invitations[x].workspace in s.workspaces)
  }

  /** Creating a workspace therefore never meets rows of its own. */
  lemma {:induction false} NoRowsBeforeCreation(es: seq<Event>)
    ensures TablesAgree(Run(EMPTY, es)) && RowsHaveWorkspace(Run(EMPTY, es))
    decreases |es|
  {
    WorkspaceTablesAgree(es);
    if es != [] {
      NoRowsBeforeCreation(es[..|es| - 1]);
      RowsHaveWorkspaceStep(Run(EMPTY, es[..|es| - 1]), es[|es| - 1]);
    }
  }

  lemma RowsHaveWorkspaceStep(s: State, e: Event)
    requires TablesAgree(s) && RowsHaveWorkspace(s)
    ensures RowsHaveWorkspace(Step(s, e))
  {
    var s1 := Step(s, e);
    forall k | k in s1.tables.members
      ensures k.workspace in s1.workspaces
    {
      MembershipChangesEntitled(s, e, k);
    }
  }

  /** A role update refuses to grant the actor's own level or more; an invitation does not ask. Accepting one
      leaves a member above the inviter exactly when an admin invited an owner. */
  lemma InvitationOutranksIff(t: Tables, ws: WorkspaceId, inviter: UserId, email: string, role: Role,
                              token: InviteToken, user: UserId, now: int)
    requires Manages(t, ws, inviter)
    ensures var actor, k := t.members[MemberKey(ws, inviter)], MemberKey(ws, user);
            var t1 := InviteMember(t, ws, inviter, email, Some(role), token, now).0;
            var t2 := AcceptInvitation(t1, token, user, now).0;
            && RoleIn(t2, k) == Some(role)
            && (UpdateMemberRole(t, k, inviter, Some(role)).1.Success? <==> Level(role) < Level(actor))
            && (Level(t2.members[k]) > Level(actor) <==> actor == Admin && role == Owner)
  {
  }

  lemma RunSnoc(s: State, es: seq<Event>, e: Event)
    ensures Run(s, es + [e]) == Step(Run(s, es), e)
  {
    assert (es + [e])[..|es + [e]| - 1] == es;
  }

  /** In a new workspace an admin's invitation makes an owner the owner never made. */
  lemma AdminInvitesOwner(ws: WorkspaceId, owner: UserId, admin: UserId, user: UserId, token: InviteToken, now: int)
    returns (es: seq<Event>)
    requires admin != owner
    ensures RoleIn(Run(EMPTY, es).tables, MemberKey(ws, user)) == Some(Owner)
    ensures forall e :: e in es && e.UpdateRole? ==> e.role != Some(Owner)
    ensures forall e :: e in es && e.Create? ==> e.owner == owner
    ensures forall e :: e in es && e.Invite? ==> e.inviter == admin
  {
    var create, promote := Create(ws, owner), UpdateRole(MemberKey(ws, admin), owner, Some(Admin));
    RunSnoc(EMPTY, [], create);
    RunSnoc(EMPTY, [] + [create], promote);
    var s := Run(EMPTY, [] + [create] + [promote]);
    assert Manages(s.tables, ws, admin);
    var invite, accept := Invite(ws, admin, "", Some(Owner), token, now), Accept(token, user, now);
    InvitationOutranksIff(s.tables, ws, admin, "", Owner, token, user, now);
    RunSnoc(EMPTY, [] + [create] + [promote], invite);
    RunSnoc(EMPTY, [] + [create] + [promote] + [invite], accept);
    es := [] + [create] + [promote] + [invite] + [accept];
  }

  /** The call met a state in which it took effect. */
  predicate Succeeds(s: State, e: Event) {
    Enabled(s, e) &&
    match e
    case UpdateRole(k, requester, role) => UpdateMemberRole(s.tables, k, requester, role).1.Success?
    case Remove(k, requester) => RemoveMember(s.tables, k, requester).1.Success?
    case Invite(ws, inviter, email, role, token, now) =>
      InviteMember(s.tables, ws, inviter, email, role, token, now).1.Success?
    case Accept(token, user, now) => AcceptInvitation(s.tables, token, user, now).1.Success?
    case Reject(token) => RejectInvitation(s.tables, token).1.Success?
    case _ => true
  }

  /** The `i`th call of the run from empty tables succeeded. */
  predicate SucceedsAt(es: seq<Event>, i: nat)
    requires i < |es|
  {
    Succeeds(Run(EMPTY, es[..i]), es[i])
  }

  ghost predicate CreatedBy(es: seq<Event>, ws: WorkspaceId, user: UserId) {
    exists i :: 0 <= i < |es| && es[i] == Create(ws, user) && SucceedsAt(es, i)
  }

  ghost predicate OwnerInvited(es: seq<Event>, ws: WorkspaceId) {
    exists i :: 0 <= i < |es| && es[i].Invite? && es[i].workspace == ws && es[i].role == Some(Owner) && SucceedsAt(es, i)
  }

  /** An owner created the workspace, unless one of its managers invited somebody to it as an owner. */
  ghost predicate OwnersExplained(es: seq<Event>, t: Tables) {
    && (forall k :: k in t.members && t.members[k] == Owner ==>
          CreatedBy(es, k.workspace, k.user) || OwnerInvited(es, k.workspace))
    && (forall x :: x in t.invitations && t.invitations[x].role == Owner ==>
          OwnerInvited(es, t.invitations[x].workspace))
  }

  /** What a shorter run explains, a longer one does. */
  lemma StillExplained(es: seq<Event>, ws: WorkspaceId, user: UserId)
    requires es != []
    ensures CreatedBy(es[..|es| - 1], ws, user) ==> CreatedBy(es, ws, user)
    ensures OwnerInvited(es[..|es| - 1], ws) ==> OwnerInvited(es, ws)
  {
    var rest := es[..|es| - 1];
    assert forall i :: 0 <= i < |rest| ==> rest[..i] == es[..i];
    if CreatedBy(rest, ws, user) {
      var i :| 0 <= i < |rest| && rest[i] == Create(ws, user) && SucceedsAt(rest, i);
      assert SucceedsAt(es, i);
    }
    if OwnerInvited(rest, ws) {
      var i :| 0 <= i < |rest| && rest[i].Invite? && rest[i].workspace == ws && rest[i].role == Some(Owner)
               && SucceedsAt(rest, i);
      assert SucceedsAt(es, i);
    }
  }

  lemma InvitationsComeFromInvites(s: State, e: Event, x: InviteToken)
    requires TablesAgree(s) && x in Step(s, e).tables.invitations
    requires x !in s.tables.invitations
    ensures e.Invite? && e.role == Some(Step(s, e).tables.invitations[x].role)
    ensures Step(s, e).tables.invitations[x].workspace == e.workspace && Succeeds(s, e)
  {
  }

  lemma InvitationsDoNotChange(s: State, e: Event, x: InviteToken)
    requires TablesAgree(s) && x in Step(s, e).tables.invitations && x in s.tables.invitations
    ensures Step(s, e).tables.invitations[x] == s.tables.invitations[x]
  {
  }

  lemma {:induction false} OwnersCreatedOrInvited(es: seq<Event>)
    ensures OwnersExplained(es, Run(EMPTY, es).tables)
    decreases |es|
  {
    if es != [] {
      var rest, e := es[..|es| - 1], es[|es| - 1];
      var s, s1 := Run(EMPTY, rest), Run(EMPTY, es);
      OwnersCreatedOrInvited(rest);
      WorkspaceTablesAgree(rest);
      forall k | k in s1.tables.members && s1.tables.members[k] == Owner
        ensures CreatedBy(es, k.workspace, k.user) || OwnerInvited(es, k.workspace)
      {
        MembershipChangesEntitled(s, e, k);
        StillExplained(es, k.workspace, k.user);
        assert e == Create(k.workspace, k.user) && Enabled(s, e) ==> SucceedsAt(es, |rest|);
      }
      forall x | x in s1.tables.invitations && s1.tables.invitations[x].role == Owner
        ensures OwnerInvited(es, s1.tables.invitations[x].workspace)
      {
        if x in s.tables.invitations {
          InvitationsDoNotChange(s, e, x);
          StillExplained(es, s.tables.invitations[x].workspace, 0);
        } else {
          InvitationsComeFromInvites(s, e, x);
          assert SucceedsAt(es, |rest|);
        }
      }
    }
  }

  // ---------- owners can lose their workspace ----------

  /** A call takes the owner's role from `k`: neither a role update nor a removal looks at the role it takes. */
  predicate Unseats(t: Tables, e: Event, k: MemberKey) {
    match e
    case UpdateRole(key, requester, role) =>
      key == k && role.Some? && Manages(t, k.workspace, requester)
      && Level(role.value) < Level(RoleIn(t, MemberKey(k.workspace, requester)).value)
    case Remove(key, requester) => key == k && requester != k.user && Manages(t, k.workspace, requester)
    case Accept(token, user, now) =>
      && user == k.user && token in t.invitations && t.invitations[token].workspace == k.workspace
      && !t.invitations[token].accepted && now <= t.invitations[token].expiresAt && t.invitations[token].role != Owner
    case _ => false
  }

  lemma OwnerStaysIff(s: State, e: Event, k: MemberKey)
    requires RoleIn(s.tables, k) == Some(Owner) && k.workspace in s.workspaces
    ensures RoleIn(Step(s, e).tables, k) == Some(Owner) <==> !Unseats(s.tables, e, k)
  {
  }

  ghost predicate OwnerThroughout(s: State, es: seq<Event>, k: MemberKey) {
    forall i :: 0 <= i <= |es| ==> RoleIn(Run(s, es[..i]).tables, k) == Some(Owner)
  }

  lemma {:induction false} OwnerThroughoutAux(s: State, es: seq<Event>, k: MemberKey)
    requires RoleIn(s.tables, k) == Some(Owner) && k.workspace in s.workspaces
    requires forall i :: 0 <= i < |es| ==> !Unseats(Run(s, es[..i]).tables, es[i], k)
    ensures RoleIn(Run(s, es).tables, k) == Some(Owner) && k.workspace in Run(s, es).workspaces
    decreases |es|
  {
    if es != [] {
      var n := |es| - 1;
      assert forall i :: 0 <= i < n ==> es[..n][..i] == es[..i];
      OwnerThroughoutAux(s, es[..n], k);
      OwnerStaysIff(Run(s, es[..n]), es[n], k);
    }
  }

  /** An owner stays one all along a run exactly when no call in it unseats them: no manager grants them a role
      below the manager's own or removes them, and they accept no invitation to a lesser role. */
  lemma OwnerThroughoutIff(s: State, es: seq<Event>, k: MemberKey)
    requires RoleIn(s.tables, k) == Some(Owner) && k.workspace in s.workspaces
    ensures OwnerThroughout(s, es, k) <==> forall i :: 0 <= i < |es| ==> !Unseats(Run(s, es[..i]).tables, es[i], k)
  {
    if forall i :: 0 <= i < |es| ==> !Unseats(Run(s, es[..i]).tables, es[i], k) {
      forall i | 0 <= i <= |es|
        ensures RoleIn(Run(s, es[..i]).tables, k) == Some(Owner)
      {
        assert forall j :: 0 <= j < i ==> es[..i][..j] == es[..j];
        OwnerThroughoutAux(s, es[..i], k);
      }
    }
    if OwnerThroughout(s, es, k) {
      forall i | 0 <= i < |es|
        ensures !Unseats(Run(s, es[..i]).tables, es[i], k)
      {
        var before := Run(s, es[..i]);
        assert es[..i + 1][..i] == es[..i] && RoleIn(Run(s, es[..i + 1]).tables, k) == Some(Owner);
        WorkspacesOnlyGrow(s, es[..i]);
        OwnerStaysIff(before, es[i], k);
      }
    }
  }

  lemma {:induction false} WorkspacesOnlyGrow(s: State, es: seq<Event>)
    ensures s.workspaces <= Run(s, es).workspaces
    decreases |es|
  {
    if es != [] {
      WorkspacesOnlyGrow(s, es[..|es| - 1]);
    }
  }

  /** Three calls leave a workspace with members and no owner: an admin the owner made demotes the owner. */
  lemma WorkspaceWithoutOwner(ws: WorkspaceId, owner: UserId, admin: UserId)
    requires admin != owner
    ensures var es := [Create(ws, owner), UpdateRole(MemberKey(ws, admin), owner, Some(Admin)),
                       UpdateRole(MemberKey(ws, owner), admin, Some(Guest))];
            var t := Run(EMPTY, es).tables;
            && RoleIn(t, MemberKey(ws, admin)) == Some(Admin) && RoleIn(t, MemberKey(ws, owner)) == Some(Guest)
            && forall u :: RoleIn(t, MemberKey(ws, u)) != Some(Owner)
  {
    var create, promote := Create(ws, owner), UpdateRole(MemberKey(ws, admin), owner, Some(Admin));
    var demote := UpdateRole(MemberKey(ws, owner), admin, Some(Guest));
    RunSnoc(EMPTY, [], create);
    RunSnoc(EMPTY, [create], promote);
    RunSnoc(EMPTY, [create, promote], demote);
    assert [] + [create] == [create] && [create] + [promote] == [create, promote];
    assert [create, promote] + [demote] == [create, promote, demote];
  }

  /** A new link takes the place of the inviter's old one in that workspace, and of nothing else. */
  lemma NewLinkReplacesOld(t: Tables, ws: WorkspaceId, inviter: UserId, email: string, role: Option<Role>,
                           token: InviteToken, now: int, x: InviteToken)
    requires InvitationsAgree(t) && token !in t.invitations && x in t.invitations
    requires InviteMember(t, ws, inviter, email, role, token, now).1.Success?
    ensures var t1 := InviteMember(t, ws, inviter, email, role, token, now).0;
            && token in t1.invitations
            && (x in t1.invitations <==> !RivalLinks(t.invitations[x], t1.invitations[token]))
            && (x in t1.invitations ==> t1.invitations[x] == t.invitations[x])
  {
    TrimTwice(email);
    assert InviteKey(t.invitations[x].workspace, x) in t.byWorkspace;
  }

  /** A listing has the workspaces of either table, with the by-user table's role first, and copies over exactly
      the rows that table lacks. */
  lemma ListingReads(t: Tables, user: UserId)
    ensures forall ws :: ws in Listing(t, user) <==>
      MemberKey(ws, user) in t.membersByUser || MemberKey(ws, user) in t.members
    ensures forall ws :: ws in Listing(t, user) ==>
      var k := MemberKey(ws, user);
      Listing(t, user)[ws] == if k in t.membersByUser then t.membersByUser[k] else t.members[k]
    ensures var rows := Backfill(t, user).membersByUser;
            && (forall k :: k in rows <==> k in t.membersByUser || (k in t.members && k.user == user))
            && (forall k :: k in rows ==> rows[k] == if k in t.membersByUser then t.membersByUser[k] else t.members[k])
    ensures Backfill(t, user) == t.(membersByUser := Backfill(t, user).membersByUser)
  {
    RolesOfAt(t.members, user);
    RolesOfAt(t.membersByUser, user);
  }

  /** Whatever tables listing starts from, it reports every workspace either table knows, and leaves the
      user's rows in agreement exactly when the by-user table had no row the member table contradicts. */
  lemma ListingRepairsIff(t: Tables, user: UserId)
    ensures forall ws :: ws in Listing(t, user) <==>
      MemberKey(ws, user) in t.members || MemberKey(ws, user) in t.membersByUser
    ensures
      var t1 := Backfill(t, user);
      (forall ws :: RowAgrees(t1, MemberKey(ws, user)))
      <==> (forall ws :: MemberKey(ws, user) in t.membersByUser ==> RowAgrees(t, MemberKey(ws, user)))
  {
    var t1 := Backfill(t, user);
    forall ws
      ensures MemberKey(ws, user) in t.membersByUser ==> t1.membersByUser[MemberKey(ws, user)] == t.membersByUser[MemberKey(ws, user)]
      ensures RowAgrees(t1, MemberKey(ws, user)) <==>
        (MemberKey(ws, user) in t.membersByUser ==> RowAgrees(t, MemberKey(ws, user)))
    {
    }
    RolesOfAt(t.members, user);
    RolesOfAt(t.membersByUser, user);
  }

  /** The two member tables say the same about one membership. */
  predicate RowAgrees(t: Tables, k: MemberKey) {
    if k in t.membersByUser then k in t.members && t.members[k] == t.membersByUser[k] else k !in t.members
  }
}
