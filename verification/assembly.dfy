/**
 The result assembly of `groups_for` and `roles_for` (lib/googleapi.rb:22,
 34-43) over already-parsed response records.
 */
module Assembly {
  import opened Wrappers

  /** One entry of the `groups` array. */
  datatype Group = Group(email: string)

  /** One entry of the organisation's `items` array of roles. */
  datatype OrgRole = OrgRole(roleId: string, roleName: string, roleDescription: string)

  /** One entry of the user's `items` array of role assignments. */
  datatype RoleAssignment = RoleAssignment(roleId: string)

  /** The hash `roles_for` builds for a matched assignment. */
  datatype ResolvedRole = ResolvedRole(roleId: string, roleName: string, roleDescription: string)

  /** `groups.map { |g| g['email'] }` (lib/googleapi.rb:22). */
  function GroupEmails(groups: seq<Group>): (r: seq<string>)
    ensures |r| == |groups|
    ensures forall i :: 0 <= i < |r| ==> r[i] == groups[i].email
  {
    if |groups| == 0 then []
    else [groups[0].email] + GroupEmails(groups[1..])
  }

  /** The projection distributes over concatenation. */
  lemma GroupEmailsAppend(a: seq<Group>, b: seq<Group>)
    ensures GroupEmails(a + b) == GroupEmails(a) + GroupEmails(b)
  {
  }

  /** `k` is the index of the first role in `roles` whose id is `id`. */
  ghost predicate IsFirstMatch(roles: seq<OrgRole>, id: string, k: int) {
    && 0 <= k < |roles|
    && roles[k].roleId == id
    && forall j :: 0 <= j < k ==> roles[j].roleId != id
  }

  /** `roles.detect { |r| r['roleId'] == id }` (lib/googleapi.rb:35). */
  function Detect(roles: seq<OrgRole>, id: string): (r: Option<OrgRole>)
    ensures r.None? <==> forall k :: 0 <= k < |roles| ==> roles[k].roleId != id
    ensures r.Some? ==> exists k :: IsFirstMatch(roles, id, k) && roles[k] == r.value
  {
    if |roles| == 0 then None
    else if roles[0].roleId == id then
      assert IsFirstMatch(roles, id, 0);
      Some(roles[0])
    else
      var r := Detect(roles[1..], id);
      assert r.Some? ==> exists k :: IsFirstMatch(roles, id, k) && roles[k] == r.value by {
        if r.Some? {
          var k :| IsFirstMatch(roles[1..], id, k) && roles[1..][k] == r.value;
          assert IsFirstMatch(roles, id, k + 1);
        }
      }
      r
  }

  /** The hash built from a matched org role (lib/googleapi.rb:38-42). */
  function Resolve(o: OrgRole): ResolvedRole {
    ResolvedRole(o.roleId, o.roleName, o.roleDescription)
  }

  /**
   The block of `map` in lib/googleapi.rb:35-42, for one assignment: `nil` when
   no org role has its id (`next unless org_role`), else the first such role's
   id, name and description.
   */
  function ResolveAssignment(orgRoles: seq<OrgRole>, a: RoleAssignment): (r: Option<ResolvedRole>)
    ensures r.None? <==> forall k :: 0 <= k < |orgRoles| ==> orgRoles[k].roleId != a.roleId
    ensures r.Some? ==> exists k :: IsFirstMatch(orgRoles, a.roleId, k) && r.value == Resolve(orgRoles[k])
  {
    match Detect(orgRoles, a.roleId)
    case Some(o) => Some(Resolve(o))
    case None => None
  }

  /**
   The join of lib/googleapi.rb:34-43 as written: one element per assignment, in
   order; `nil` (None) where no org role matches, since `next` inside `map`
   yields `nil` rather than dropping the element.
   */
  function ResolveRoles(orgRoles: seq<OrgRole>, assignments: seq<RoleAssignment>): (r: seq<Option<ResolvedRole>>)
    ensures |r| == |assignments|
    ensures forall i :: 0 <= i < |r| ==>
              (r[i].None? <==> forall k :: 0 <= k < |orgRoles| ==> orgRoles[k].roleId != assignments[i].roleId)
    ensures forall i :: 0 <= i < |r| && r[i].Some? ==>
              exists k :: IsFirstMatch(orgRoles, assignments[i].roleId, k) && r[i].value == Resolve(orgRoles[k])
  {
    seq(|assignments|, i requires 0 <= i < |assignments| => ResolveAssignment(orgRoles, assignments[i]))
  }

  /** Drops the `nil`s of a list, keeping the order of the rest (Ruby's `compact`). */
  function Compact<T>(s: seq<Option<T>>): seq<T> {
    if |s| == 0 then []
    else if s[0].Some? then [s[0].value] + Compact(s[1..])
    else Compact(s[1..])
  }

  /**
   The join with unmatched assignments skipped: for each assignment that some
   org role matches, in order, the first such role.
   */
  function MatchedRoles(orgRoles: seq<OrgRole>, assignments: seq<RoleAssignment>): seq<ResolvedRole> {
    if |assignments| == 0 then []
    else
      var rest := MatchedRoles(orgRoles, assignments[1..]);
      match Detect(orgRoles, assignments[0].roleId)
      case Some(o) => [Resolve(o)] + rest
      case None => rest
  }

  /** Removing the `nil`s from the join as written gives the join that skips unmatched assignments. */
  lemma {:induction false} CompactedJoinSkipsUnmatched(orgRoles: seq<OrgRole>, assignments: seq<RoleAssignment>)
    ensures Compact(ResolveRoles(orgRoles, assignments)) == MatchedRoles(orgRoles, assignments)
    decreases |assignments|
  {
    if |assignments| > 0 {
      var r := ResolveRoles(orgRoles, assignments);
      assert r[1..] == ResolveRoles(orgRoles, assignments[1..]);
      CompactedJoinSkipsUnmatched(orgRoles, assignments[1..]);
    }
  }

  /**
   One matched and one unmatched assignment: the result keeps a `nil` in the
   unmatched position instead of leaving it out.
   */
  lemma UnmatchedAssignmentYieldsNil()
    ensures ResolveRoles([OrgRole("1", "Admin", "d")], [RoleAssignment("1"), RoleAssignment("2")])
            == [Some(ResolvedRole("1", "Admin", "d")), None]
  {
  }

  /** When several org roles share an id, the first one wins. */
  lemma FirstOrgRoleWins(id: string, a: OrgRole, b: OrgRole, assignments: seq<RoleAssignment>)
    requires a.roleId == id && b.roleId == id
    ensures forall i :: 0 <= i < |assignments| && assignments[i].roleId == id ==>
              ResolveRoles([a, b], assignments)[i] == Some(Resolve(a))
  {
  }
}
