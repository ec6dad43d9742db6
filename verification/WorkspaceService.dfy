// The workspace service object: the four tables, and the writes each call makes
// to them one after the other. Every method makes the call of the same name in
// Workspaces.dfy, keeps the tables in agreement, and says what its caller sees.

module WorkspaceServiceObject {
  import opened Prelude
  import W = Workspaces

  class Service {
    var members: map<W.MemberKey, W.Role>
    var membersByUser: map<W.MemberKey, W.Role>
    var invitations: map<W.InviteToken, W.Invitation>
    var invitationsByWorkspace: map<W.InviteKey, W.Invitation>

    // The ids drawn so far, and the tokens accepted, in order.
    ghost var workspaces: set<W.WorkspaceId>
    ghost var drawnTokens: set<W.InviteToken>
    ghost var accepted: seq<W.InviteToken>

    ghost function View(): W.Tables
      reads this
    {
      W.Tables(members, membersByUser, invitations, invitationsByWorkspace)
    }

    ghost function Now(): W.State
      reads this
    {
      W.State(View(), workspaces, drawnTokens, accepted)
    }

    /** What every run keeps: the tables agree, and speak of created workspaces only. */
    ghost predicate Valid()
      reads this
    {
      W.TablesAgree(Now()) && W.RowsHaveWorkspace(Now())
    }

    twostate lemma StepKeepsValid(e: W.Event)
      requires old(Valid()) && Now() == W.Step(old(Now()), e)
      ensures Valid()
    {
      W.TablesAgreeStep(old(Now()), e);
      W.RowsHaveWorkspaceStep(old(Now()), e);
    }

    twostate lemma SameTablesKeepValid()
      requires old(Valid()) && Now() == old(Now())
      ensures Valid()
    {
    }

    constructor ()
      ensures Valid() && Now() == W.EMPTY
    {
      members, membersByUser, invitations, invitationsByWorkspace := map[], map[], map[], map[];
      workspaces, drawnTokens, accepted := {}, {}, [];
    }

    method GetMemberRole(k: W.MemberKey) returns (role: Option<W.Role>)
      ensures role == if k in members then Some(members[k]) else None
    {
      role := if k in members then Some(members[k]) else None;
    }

    /** The id is fresh: the owner is the new workspace's one member, and finds it among their own. */
    method CreateWorkspace(ws: W.WorkspaceId, owner: W.UserId)
      requires ws !in workspaces
      modifies this
      ensures Now() == W.Step(old(Now()), W.Create(ws, owner))
      ensures old(Valid()) ==>
        && Valid()
        && forall u :: W.RoleIn(View(), W.MemberKey(ws, u)) == if u == owner then Some(W.Owner) else None
      ensures ws in W.Listing(View(), owner) && W.Listing(View(), owner)[ws] == W.Owner
    {
      members := members[W.MemberKey(ws, owner) := W.Owner];
      membersByUser := membersByUser[W.MemberKey(ws, owner) := W.Owner];
      workspaces := workspaces + {ws};
      if old(Valid()) {
        StepKeepsValid(W.Create(ws, owner));
      }
      W.RolesOfAt(members, owner);
      W.RolesOfAt(membersByUser, owner);
    }

    /** Nobody grants their own level or more, and no other membership changes. */
    method UpdateMemberRole(k: W.MemberKey, requester: W.UserId, role: Option<W.Role>) returns (r: W.Result<W.Role>)
      modifies this
      ensures (View(), r) == W.UpdateMemberRole(old(View()), k, requester, role)
      ensures old(Valid()) ==> Valid()
      ensures var actor := old(W.RoleIn(View(), W.MemberKey(k.workspace, requester)));
              r.Success? <==>
                || (actor == Some(W.Admin) && (role == Some(W.Guest) || role == Some(W.Member) || role == Some(W.Editor)))
                || (actor == Some(W.Owner) && role.Some? && role != Some(W.Owner))
      ensures r.Success? ==> W.RoleIn(View(), k) == role && W.Entitled(old(View()), W.UpdateRole(k, requester, role), k, role)
      ensures forall x :: x != k || r.Failure? ==> W.RoleIn(View(), x) == old(W.RoleIn(View(), x))
    {
      W.UpdateOutcome(View(), k, requester, role);
      r := TakeUpdate(k, requester, role);
      if old(Valid()) {
        StepKeepsValid(W.UpdateRole(k, requester, role));
      }
    }

    /** The call itself. */
    method TakeUpdate(k: W.MemberKey, requester: W.UserId, role: Option<W.Role>) returns (r: W.Result<W.Role>)
      modifies `members, `membersByUser
      ensures (View(), r) == W.UpdateMemberRole(old(View()), k, requester, role)
    {
      var actor := GetMemberRole(W.MemberKey(k.workspace, requester));
      if actor.None? || !W.ManagesMembers(actor.value) {
        return W.Failure(W.AccessDenied);
      }
      if role.None? || W.Level(actor.value) <= W.Level(role.value) {
        return W.Failure(W.AccessDenied);
      }
      members := members[k := role.value];
      membersByUser := membersByUser[k := role.value];
      return W.Success(role.value);
    }

    /** An owner never removes themselves, and no other membership changes. */
    method RemoveMember(k: W.MemberKey, requester: W.UserId) returns (r: W.Result<()>)
      modifies this
      ensures (View(), r) == W.RemoveMember(old(View()), k, requester)
      ensures old(Valid()) ==> Valid()
      ensures var actor := old(W.RoleIn(View(), W.MemberKey(k.workspace, requester)));
              && (r == W.Success(()) <==>
                    || (k.user == requester && actor.Some? && actor != Some(W.Owner))
                    || (k.user != requester && (actor == Some(W.Admin) || actor == Some(W.Owner))))
              && (r == W.Failure(W.OwnerCannotLeave) <==> k.user == requester && actor == Some(W.Owner))
              && (r == W.Failure(W.AccessDenied) <==>
                    actor == None || (k.user != requester && actor != Some(W.Admin) && actor != Some(W.Owner)))
      ensures r.Success? ==> W.RoleIn(View(), k) == None && W.Entitled(old(View()), W.Remove(k, requester), k, None)
      ensures forall x :: x != k || r.Failure? ==> W.RoleIn(View(), x) == old(W.RoleIn(View(), x))
    {
      W.RemoveOutcome(View(), k, requester);
      r := TakeRemove(k, requester);
      if old(Valid()) {
        StepKeepsValid(W.Remove(k, requester));
      }
    }

    /** The call itself. */
    method TakeRemove(k: W.MemberKey, requester: W.UserId) returns (r: W.Result<()>)
      modifies `members, `membersByUser
      ensures (View(), r) == W.RemoveMember(old(View()), k, requester)
    {
      var actor := GetMemberRole(W.MemberKey(k.workspace, requester));
      if actor.None? {
        return W.Failure(W.AccessDenied);
      }
      var selfLeave := k.user == requester;
      if selfLeave && actor.value == W.Owner {
        return W.Failure(W.OwnerCannotLeave);
      }
      if !selfLeave && !W.ManagesMembers(actor.value) {
        return W.Failure(W.AccessDenied);
      }
      members := members - {k};
      membersByUser := membersByUser - {k};
      return W.Success(());
    }

    /** The token is fresh: it is the one open link of its inviter if it is a link, and every other invitation
        that is not its rival stays as it was. */
    method InviteMember(ws: W.WorkspaceId, inviter: W.UserId, email: string, role: Option<W.Role>,
                        drawn: W.InviteToken, now: int)
      returns (r: W.Result<W.InviteToken>)
      requires drawn !in drawnTokens
      modifies this
      ensures (View(), r) == W.InviteMember(old(View()), ws, inviter, email, role, drawn, now)
      ensures old(Valid()) ==> Valid()
      ensures var actor := old(W.RoleIn(View(), W.MemberKey(ws, inviter)));
              r.Success? <==> (actor == Some(W.Admin) || actor == Some(W.Owner)) && role != None
      ensures r.Success? ==>
        && r.value == drawn && drawn in invitations
        && invitations[drawn] ==
             W.Invitation(ws, W.TrimSpace(email), role.value, inviter, now + 604_800_000_000_000, false)
      ensures old(Valid()) && r.Success? ==>
        && drawn in invitations
        && forall x :: x in old(invitations) ==>
             && (x in invitations <==> !W.RivalLinks(old(invitations)[x], invitations[drawn]))
             && (x in invitations ==> invitations[x] == old(invitations)[x])
    {
      W.InviteOutcome(View(), ws, inviter, email, role, drawn, now);
      r := TakeInvite(ws, inviter, email, role, drawn, now);
      drawnTokens := drawnTokens + {drawn};
      ghost var was := old(View());
      if old(Valid()) {
        StepKeepsValid(W.Invite(ws, inviter, email, role, drawn, now));
      }
      if old(Valid()) && r.Success? {
        forall x | x in was.invitations
          ensures x in invitations <==> !W.RivalLinks(was.invitations[x], invitations[drawn])
          ensures x in invitations ==> invitations[x] == was.invitations[x]
        {
          W.NewLinkReplacesOld(was, ws, inviter, email, role, drawn, now, x);
        }
      }
    }

    /** The call itself. */
    method TakeInvite(ws: W.WorkspaceId, inviter: W.UserId, email: string, role: Option<W.Role>,
                      drawn: W.InviteToken, now: int)
      returns (r: W.Result<W.InviteToken>)
      modifies `invitations, `invitationsByWorkspace
      ensures (View(), r) == W.InviteMember(old(View()), ws, inviter, email, role, drawn, now)
    {
      var actor := GetMemberRole(W.MemberKey(ws, inviter));
      if actor.None? || !W.ManagesMembers(actor.value) {
        return W.Failure(W.AccessDenied);
      }
      if role.None? {
        return W.Failure(W.InvalidRole);
      }
      var clean := W.TrimSpace(email);
      if clean == "" {
        ResetInviteCodeLinks(ws, inviter);
      }
      var inv := W.Invitation(ws, clean, role.value, inviter, now + W.INVITE_LIFETIME, false);
      invitations := invitations[drawn := inv];
      invitationsByWorkspace := invitationsByWorkspace[W.InviteKey(ws, drawn) := inv];
      return W.Success(drawn);
    }

    /** Scans the workspace's invitations and deletes the inviter's open links from both tables. */
    method ResetInviteCodeLinks(ws: W.WorkspaceId, inviter: W.UserId)
      modifies `invitations, `invitationsByWorkspace
      ensures View() == W.ResetLinks(old(View()), ws, inviter)
    {
      ghost var was, done := View(), {};
      var rows := invitationsByWorkspace;
      var todo := set k | k in rows && k.workspace == ws;
      while todo != {}
        invariant todo <= rows.Keys
        invariant forall k :: k in rows && k.workspace == ws ==> k in todo || k.token in done
        invariant forall k :: k in todo ==> k.workspace == ws
        invariant View() == ResetSome(was, ws, inviter, done)
      {
        var k :| k in todo;
        todo := todo - {k};
        var row := rows[k];
        ResetOne(was, ws, inviter, done, k.token);
        if row.invitedBy == inviter && W.TrimSpace(row.email) == "" && !row.accepted {
          InvalidateInvitationToken(ws, k.token);
        }
        done := done + {k.token};
      }
      ResetAll(was, ws, inviter, done);
    }

    method InvalidateInvitationToken(ws: W.WorkspaceId, token: W.InviteToken)
      modifies `invitations, `invitationsByWorkspace
      ensures View() == W.Invalidate(old(View()), ws, token)
    {
      invitationsByWorkspace := invitationsByWorkspace - {W.InviteKey(ws, token)};
      invitations := invitations - {token};
    }

    /** A token is good once: whoever presents it again, at whatever time, finds no invitation. */
    method AcceptInvitation(token: W.InviteToken, user: W.UserId, now: int) returns (r: W.Result<W.Role>)
      modifies this
      ensures (View(), r) == W.AcceptInvitation(old(View()), token, user, now)
      ensures old(Valid()) ==> Valid() && (r.Success? ==> token !in old(accepted))
      ensures r.Success? <==>
        token in old(invitations) && !old(invitations)[token].accepted && now <= old(invitations)[token].expiresAt
      ensures r.Success? ==>
        && accepted == old(accepted) + [token]
        && W.RoleIn(View(), W.MemberKey(old(invitations)[token].workspace, user)) == Some(r.value)
        && forall u, later :: W.AcceptInvitation(View(), token, u, later) == (View(), W.Failure(W.InvitationNotFound))
    {
      W.AcceptOutcome(View(), token, user, now);
      r := TakeAccept(token, user, now);
      if r.Success? {
        accepted := accepted + [token];
      }
      if old(Valid()) {
        StepKeepsValid(W.Accept(token, user, now));
      }
    }

    /** The call itself. */
    method TakeAccept(token: W.InviteToken, user: W.UserId, now: int) returns (r: W.Result<W.Role>)
      modifies `members, `membersByUser, `invitations, `invitationsByWorkspace
      ensures (View(), r) == W.AcceptInvitation(old(View()), token, user, now)
    {
      if token !in invitations {
        return W.Failure(W.InvitationNotFound);
      }
      var inv := invitations[token];
      if inv.accepted {
        return W.Failure(W.InvitationUsed);
      }
      if now > inv.expiresAt {
        return W.Failure(W.InvitationExpired);
      }
      invitations := invitations[token := inv.(accepted := true)];
      members := members[W.MemberKey(inv.workspace, user) := inv.role];
      membersByUser := membersByUser[W.MemberKey(inv.workspace, user) := inv.role];
      InvalidateInvitationToken(inv.workspace, token);
      assert invitations == old(invitations) - {token};
      return W.Success(inv.role);
    }

    /** A rejected token is never good again, and no membership changes. */
    method RejectInvitation(token: W.InviteToken) returns (r: W.Result<()>)
      modifies this
      ensures (View(), r) == W.RejectInvitation(old(View()), token)
      ensures old(Valid()) ==> Valid()
      ensures r.Success? <==> token in old(invitations) && !old(invitations)[token].accepted
      ensures r.Success? ==>
        forall u, later :: W.AcceptInvitation(View(), token, u, later) == (View(), W.Failure(W.InvitationNotFound))
      ensures members == old(members)
    {
      W.RejectOutcome(View(), token);
      r := TakeReject(token);
      if old(Valid()) {
        StepKeepsValid(W.Reject(token));
      }
    }

    /** The call itself. */
    method TakeReject(token: W.InviteToken) returns (r: W.Result<()>)
      modifies `invitations, `invitationsByWorkspace
      ensures (View(), r) == W.RejectInvitation(old(View()), token)
    {
      if token !in invitations {
        return W.Failure(W.InvitationNotFound);
      }
      if invitations[token].accepted {
        return W.Failure(W.InvitationUsed);
      }
      InvalidateInvitationToken(invitations[token].workspace, token);
      return W.Success(());
    }

    /** Merges the two tables for the user, the by-user one first, and backfills it as it goes; from tables that
        agree there is nothing to backfill. */
    method ListMyWorkspaces(user: W.UserId) returns (roles: map<W.WorkspaceId, W.Role>, ids: seq<W.WorkspaceId>)
      modifies `membersByUser
      ensures roles == W.Listing(old(View()), user)
      ensures Listed(roles, ids)
      ensures View() == W.Backfill(old(View()), user)
      ensures old(Valid()) ==> Valid() && View() == old(View())
    {
      roles, ids := TakeListing(user);
      if old(Valid()) {
        W.NothingToBackfill(old(View()), user);
        SameTablesKeepValid();
      }
    }

    /** Both scans. */
    method TakeListing(user: W.UserId) returns (roles: map<W.WorkspaceId, W.Role>, ids: seq<W.WorkspaceId>)
      modifies `membersByUser
      ensures roles == W.Listing(old(View()), user)
      ensures Listed(roles, ids)
      ensures View() == W.Backfill(old(View()), user)
    {
      roles, ids := ScanByUser(user);
      roles, ids := ScanMembers(user, roles, ids);
    }

    method ScanByUser(user: W.UserId) returns (roles: map<W.WorkspaceId, W.Role>, ids: seq<W.WorkspaceId>)
      ensures roles == W.RolesOf(membersByUser, user)
      ensures Listed(roles, ids)
    {
      roles, ids := map[], [];
      var todo := set k | k in membersByUser && k.user == user;
      while todo != {}
        invariant forall k :: k in todo ==> k in membersByUser && k.user == user
        invariant forall k :: k in membersByUser && k.user == user ==> k in todo || k.workspace in roles
        invariant forall ws :: ws in roles ==>
          W.MemberKey(ws, user) in membersByUser && roles[ws] == membersByUser[W.MemberKey(ws, user)]
        invariant Listed(roles, ids)
      {
        var k :| k in todo;
        todo := todo - {k};
        if k.workspace !in roles {
          ListOneMore(roles, ids, k.workspace, membersByUser[k]);
          roles, ids := roles[k.workspace := membersByUser[k]], ids + [k.workspace];
        }
      }
      RolesAre(membersByUser, user, roles);
    }

    method ScanMembers(user: W.UserId, found: map<W.WorkspaceId, W.Role>, order: seq<W.WorkspaceId>)
      returns (roles: map<W.WorkspaceId, W.Role>, ids: seq<W.WorkspaceId>)
      requires found == W.RolesOf(membersByUser, user) && Listed(found, order)
      modifies `membersByUser
      ensures roles == W.Listing(old(View()), user)
      ensures Listed(roles, ids)
      ensures View() == W.Backfill(old(View()), user)
    {
      roles, ids := found, order;
      ghost var was, done := View(), [];
      var todo := set k | k in members && k.user == user;
      ghost var mine := todo;
      while todo != {}
        invariant todo <= mine
        invariant forall k :: k in mine ==> k in todo || k in done
        invariant forall k :: k in done ==> k in mine
        invariant VisitAll(was, user, done) == (roles, membersByUser)
        invariant Listed(roles, ids)
      {
        var k :| k in todo;
        todo := todo - {k};
        assert (done + [k])[..|done|] == done;
        if k.workspace !in roles {
          ListOneMore(roles, ids, k.workspace, members[k]);
          roles, ids := roles[k.workspace := members[k]], ids + [k.workspace];
          membersByUser := membersByUser[k := members[k]];
        }
        done := done + [k];
      }
      VisitedAll(was, user, done);
    }
  }

  /** ids names every workspace in roles, once each. */
  ghost predicate Listed(roles: map<W.WorkspaceId, W.Role>, ids: seq<W.WorkspaceId>) {
    && (forall ws :: ws in ids <==> ws in roles)
    && (forall i, j :: 0 <= i < j < |ids| ==> ids[i] != ids[j])
  }

  lemma ListOneMore(roles: map<W.WorkspaceId, W.Role>, ids: seq<W.WorkspaceId>, ws: W.WorkspaceId, r: W.Role)
    requires Listed(roles, ids) && ws !in roles
    ensures Listed(roles[ws := r], ids + [ws])
  {
    var more := ids + [ws];
    forall x
      ensures x in more <==> x in roles || x == ws
    {
    }
  }

  lemma RolesAre(rows: map<W.MemberKey, W.Role>, user: W.UserId, roles: map<W.WorkspaceId, W.Role>)
    requires forall k :: k in rows && k.user == user ==> k.workspace in roles
    requires forall ws :: ws in roles ==> W.MemberKey(ws, user) in rows && roles[ws] == rows[W.MemberKey(ws, user)]
    ensures roles == W.RolesOf(rows, user)
  {
    var all := W.RolesOf(rows, user);
    forall ws | ws in roles
      ensures ws in all && all[ws] == roles[ws]
    {
      assert W.MemberKey(ws, user).workspace == ws;
    }
  }

  // ---------- how far a scan has come ----------

  ghost function ResetSome(t: W.Tables, ws: W.WorkspaceId, inviter: W.UserId, done: set<W.InviteToken>): W.Tables {
    t.(invitations :=
         map k | k in t.invitations && !(k in done && W.Resets(t, ws, inviter, k)) :: t.invitations[k],
       byWorkspace :=
         map k | k in t.byWorkspace && !(k.token in done && k.workspace == ws && W.Resets(t, ws, inviter, k.token))
         :: t.byWorkspace[k])
  }

  lemma ResetOne(t: W.Tables, ws: W.WorkspaceId, inviter: W.UserId, done: set<W.InviteToken>, token: W.InviteToken)
    ensures ResetSome(t, ws, inviter, done + {token}) ==
      if W.Resets(t, ws, inviter, token) then W.Invalidate(ResetSome(t, ws, inviter, done), ws, token)
      else ResetSome(t, ws, inviter, done)
  {
    var a, b := ResetSome(t, ws, inviter, done), ResetSome(t, ws, inviter, done + {token});
    if W.Resets(t, ws, inviter, token) {
      assert b.invitations == a.invitations - {token};
      assert b.byWorkspace == a.byWorkspace - {W.InviteKey(ws, token)};
    } else {
      assert b.invitations == a.invitations;
      assert b.byWorkspace == a.byWorkspace;
    }
  }

  lemma ResetAll(t: W.Tables, ws: W.WorkspaceId, inviter: W.UserId, done: set<W.InviteToken>)
    requires forall k :: k in t.byWorkspace && k.workspace == ws ==> k.token in done
    ensures ResetSome(t, ws, inviter, done) == W.ResetLinks(t, ws, inviter)
  {
    assert ResetSome(t, ws, inviter, done).invitations == W.ResetLinks(t, ws, inviter).invitations;
    assert ResetSome(t, ws, inviter, done).byWorkspace == W.ResetLinks(t, ws, inviter).byWorkspace;
  }

  ghost function Picked(rows: map<W.MemberKey, W.Role>, done: set<W.MemberKey>): map<W.MemberKey, W.Role> {
    map k | k in rows && k in done :: rows[k]
  }

  ghost function ListedSoFar(t: W.Tables, user: W.UserId, done: set<W.MemberKey>): map<W.WorkspaceId, W.Role> {
    W.RolesOf(Picked(t.members, done), user) + W.RolesOf(t.membersByUser, user)
  }

  ghost function BackfilledSoFar(t: W.Tables, user: W.UserId, done: set<W.MemberKey>): map<W.MemberKey, W.Role> {
    W.RowsOf(Picked(t.members, done), user) + t.membersByUser
  }

  lemma PickOne(rows: map<W.MemberKey, W.Role>, user: W.UserId, done: set<W.MemberKey>, k: W.MemberKey)
    requires k in rows && k.user == user
    ensures W.RolesOf(Picked(rows, done + {k}), user) == W.RolesOf(Picked(rows, done), user)[k.workspace := rows[k]]
    ensures W.RowsOf(Picked(rows, done + {k}), user) == W.RowsOf(Picked(rows, done), user)[k := rows[k]]
  {
    W.RolesOfAt(Picked(rows, done), user);
    W.RolesOfAt(Picked(rows, done + {k}), user);
    assert k == W.MemberKey(k.workspace, user);
  }

  lemma PutUnder<K, V>(a: map<K, V>, b: map<K, V>, k: K, v: V)
    requires k in a ==> a[k] == v
    ensures a[k := v] + b == if k in a + b then a + b else (a + b)[k := v]
  {
  }

  lemma ListOne(t: W.Tables, user: W.UserId, done: set<W.MemberKey>, k: W.MemberKey)
    requires k in t.members && k.user == user
    ensures var roles := ListedSoFar(t, user, done);
      ListedSoFar(t, user, done + {k})
      == if k.workspace in roles then roles else roles[k.workspace := t.members[k]]
  {
    W.RolesOfAt(Picked(t.members, done), user);
    assert k == W.MemberKey(k.workspace, user);
    PickOne(t.members, user, done, k);
    PutUnder(W.RolesOf(Picked(t.members, done), user), W.RolesOf(t.membersByUser, user), k.workspace, t.members[k]);
  }

  lemma BackfillOne(t: W.Tables, user: W.UserId, done: set<W.MemberKey>, k: W.MemberKey)
    requires k in t.members && k.user == user
    ensures var b := BackfilledSoFar(t, user, done);
      BackfilledSoFar(t, user, done + {k})
      == if k.workspace in ListedSoFar(t, user, done) then b
         else b[k := t.members[k]]
  {
    W.RolesOfAt(Picked(t.members, done), user);
    W.RolesOfAt(t.membersByUser, user);
    assert k == W.MemberKey(k.workspace, user);
    PickOne(t.members, user, done, k);
    PutUnder(W.RowsOf(Picked(t.members, done), user), t.membersByUser, k, t.members[k]);
  }

  ghost function VisitAll(t: W.Tables, user: W.UserId, done: seq<W.MemberKey>)
    : (map<W.WorkspaceId, W.Role>, map<W.MemberKey, W.Role>)
  {
    if done == [] then (W.RolesOf(t.membersByUser, user), t.membersByUser)
    else
      var (roles, byUser) := VisitAll(t, user, done[..|done| - 1]);
      var k := done[|done| - 1];
      if k.workspace in roles || k !in t.members then (roles, byUser)
      else (roles[k.workspace := t.members[k]], byUser[k := t.members[k]])
  }

  lemma {:induction false} VisitedSoFar(t: W.Tables, user: W.UserId, done: seq<W.MemberKey>)
    requires forall k :: k in done ==> k in t.members && k.user == user
    ensures var seen := set k | k in done;
      VisitAll(t, user, done) == (ListedSoFar(t, user, seen), BackfilledSoFar(t, user, seen))
  {
    var seen := set k | k in done;
    if done == [] {
      assert seen == {};
      BackfillNone(t, user);
    } else {
      var front, k := done[..|done| - 1], done[|done| - 1];
      var before := set x | x in front;
      assert seen == before + {k};
      VisitedSoFar(t, user, front);
      ListOne(t, user, before, k);
      BackfillOne(t, user, before, k);
    }
  }

  lemma VisitedAll(t: W.Tables, user: W.UserId, done: seq<W.MemberKey>)
    requires forall k :: k in t.members && k.user == user <==> k in done
    ensures VisitAll(t, user, done) == (W.Listing(t, user), W.Backfill(t, user).membersByUser)
  {
    VisitedSoFar(t, user, done);
    BackfillAll(t, user, set k | k in done);
  }

  lemma BackfillNone(t: W.Tables, user: W.UserId)
    ensures ListedSoFar(t, user, {}) == W.RolesOf(t.membersByUser, user)
    ensures BackfilledSoFar(t, user, {}) == t.membersByUser
  {
    assert Picked(t.members, {}) == map[];
    assert W.RolesOf(map[], user) == map[];
    assert W.RowsOf(map[], user) == map[];
  }

  lemma BackfillAll(t: W.Tables, user: W.UserId, done: set<W.MemberKey>)
    requires forall k :: k in t.members && k.user == user ==> k in done
    ensures ListedSoFar(t, user, done) == W.Listing(t, user)
    ensures BackfilledSoFar(t, user, done) == W.Backfill(t, user).membersByUser
  {
    W.RolesOfAt(Picked(t.members, done), user);
    W.RolesOfAt(t.members, user);
    assert W.RolesOf(Picked(t.members, done), user) == W.RolesOf(t.members, user);
    assert W.RowsOf(Picked(t.members, done), user) == W.RowsOf(t.members, user);
  }
}
