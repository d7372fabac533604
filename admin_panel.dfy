/**
 * The group management panel: which controls it offers to the viewing user. The add-member
 * field and the delete button go to admins only; each member row shows an "admin" badge for
 * admins and, to an admin viewer and for every member but the viewer, Remove plus one of
 * Promote or Demote.
 */
module GroupAdmin {
  import opened ChatTypes

  /** `group.admins.includes(user.id)`. */
  predicate IsAdmin(group: Conversation, viewer: Id)
    ensures IsAdmin(group, viewer) <==> exists i :: 0 <= i < |group.admins| && group.admins[i] == viewer
  {
    viewer in group.admins
  }

  /** One member line of the panel. */
  datatype MemberRow = MemberRow(member: Id, username: string, adminBadge: bool, remove: bool, promote: bool, demote: bool)

  /** The controls the panel renders. */
  datatype Panel = Panel(addMember: bool, rows: seq<MemberRow>, deleteGroup: bool)

  /** One `<li>`: the badge for admins; to an admin viewer, on others' rows, Remove and one of Demote (admins) or Promote. */
  function Row(group: Conversation, viewer: Id, m: User): (r: MemberRow)
    ensures r.member == m.id && r.username == m.username
    ensures r.adminBadge <==> m.id in group.admins
    ensures r.remove <==> viewer in group.admins && m.id != viewer
    ensures r.demote <==> r.remove && r.adminBadge
    ensures r.promote <==> r.remove && !r.adminBadge
  {
    var actions := IsAdmin(group, viewer) && m.id != viewer;
    var badge := m.id in group.admins;
    MemberRow(m.id, m.username, badge, actions, actions && !badge, actions && badge)
  }

  /** `group.members.map(m => <li>…</li>)`. */
  function Rows(group: Conversation, viewer: Id, members: seq<User>): (r: seq<MemberRow>)
    ensures |r| == |members|
    ensures forall i :: 0 <= i < |members| ==> r[i] == Row(group, viewer, members[i])
  {
    if members == [] then [] else [Row(group, viewer, members[0])] + Rows(group, viewer, members[1..])
  }

  /** The panel requires the group's member list (it maps over it unconditionally). */
  function RenderPanel(group: Conversation, viewer: Id): (p: Panel)
    requires group.members.Some?
    ensures |p.rows| == |group.members.value|
    ensures p.addMember <==> viewer in group.admins
    ensures p.deleteGroup <==> viewer in group.admins
    ensures forall i :: 0 <= i < |p.rows| ==>
      && p.rows[i].member == group.members.value[i].id
      && p.rows[i].username == group.members.value[i].username
      && (p.rows[i].adminBadge <==> group.members.value[i].id in group.admins)
      && (p.rows[i].remove <==> viewer in group.admins && group.members.value[i].id != viewer)
  {
    var admin := IsAdmin(group, viewer);
    Panel(admin, Rows(group, viewer, group.members.value), admin)
  }

  /**
   * Every row offered actions carries exactly one of Promote and Demote, Demote for admins and
   * Promote for the others; a row without Remove carries neither.
   */
  lemma ExactlyOneRoleAction(group: Conversation, viewer: Id, i: int)
    requires group.members.Some? && 0 <= i < |group.members.value|
    ensures var row := RenderPanel(group, viewer).rows[i];
      && (row.remove ==> (row.promote != row.demote) && (row.demote <==> row.adminBadge))
      && (!row.remove ==> !row.promote && !row.demote)
  {
  }

  /** A viewer who is not an admin is offered no control at all. */
  lemma NonAdminSeesNoControls(group: Conversation, viewer: Id)
    requires group.members.Some? && viewer !in group.admins
    ensures var p := RenderPanel(group, viewer);
      && !p.addMember && !p.deleteGroup
      && forall row :: row in p.rows ==> !row.remove && !row.promote && !row.demote
  {
  }

  /** The viewer's own row never offers an action, whatever the viewer's role. */
  lemma NoActionOnSelf(group: Conversation, viewer: Id, i: int)
    requires group.members.Some? && 0 <= i < |group.members.value| && group.members.value[i].id == viewer
    ensures var row := RenderPanel(group, viewer).rows[i];
      !row.remove && !row.promote && !row.demote
  {
  }

  /**
   * Once a promotion is reflected in the refetched group, the member's row flips from Promote to
   * Demote; once a demotion removes the member from `admins`, it flips back.
   */
  lemma {:induction false} PromoteDemoteFlip(group: Conversation, viewer: Id, i: int)
    requires group.members.Some? && 0 <= i < |group.members.value|
    requires viewer in group.admins && group.members.value[i].id != viewer
    ensures var m := group.members.value[i].id;
      && RenderPanel(group.(admins := group.admins + [m]), viewer).rows[i].demote
      && RenderPanel(group.(admins := RemoveAll(group.admins, m)), viewer).rows[i].promote
  {
    var m := group.members.value[i].id;
    var promoted := group.(admins := group.admins + [m]);
    var demoted := group.(admins := RemoveAll(group.admins, m));
    assert viewer in demoted.admins;
    assert RenderPanel(promoted, viewer).rows[i] == Row(promoted, viewer, group.members.value[i]);
    assert RenderPanel(demoted, viewer).rows[i] == Row(demoted, viewer, group.members.value[i]);
  }

  /** Every occurrence of `id` removed, as a demotion leaves the admin list. */
  function RemoveAll(ids: seq<Id>, id: Id): (r: seq<Id>)
    ensures forall v :: v in r <==> v in ids && v != id
  {
    if ids == [] then [] else (if ids[0] == id then [] else [ids[0]]) + RemoveAll(ids[1..], id)
  }
}
