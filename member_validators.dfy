/**
 * backend/core/app/validators/workspace_member.ts: the enum schemas for a
 * member role, all of them or every role except owner (built with `exclude`).
 * `vine.enum(list)` accepts exactly the strings in `list`.
 */
module MemberValidators {
  import opened Wrappers
  import opened Literals
  import Exclude
  import opened HttpException

  const UpdatableRoleC: seq<string> := Exclude.Exclude(WorkspaceMemberRoleC, "owner")

  /** The updatable roles are editor, manager and viewer, in that order. */
  lemma UpdatableRoleList()
    ensures UpdatableRoleC == ["editor", "manager", "viewer"]
  {
    var c := WorkspaceMemberRoleC;
    assert c[1..][1..][1..][1..] == [];
    assert Exclude.Exclude(c[1..][1..][1..], "owner") == ["viewer"];
    assert Exclude.Exclude(c[1..][1..], "owner") == ["manager", "viewer"];
    assert Exclude.Exclude(c[1..], "owner") == ["editor", "manager", "viewer"];
  }

  /** `WorkspaceMemberRoleS`: accepts exactly the four member roles. */
  function WorkspaceMemberRoleS(s: string): (ok: bool)
    ensures ok <==> ParseMemberRole(s).Some?
    ensures ok <==> s == "owner" || s == "editor" || s == "manager" || s == "viewer"
  {
    s in WorkspaceMemberRoleC
  }

  /** `WorkspaceMemberUpdatableRoleS`: accepts every member role except owner. */
  function WorkspaceMemberUpdatableRoleS(s: string): (ok: bool)
    ensures ok <==> s == "editor" || s == "manager" || s == "viewer"
    ensures ok ==> WorkspaceMemberRoleS(s)
    ensures s == "owner" ==> !ok
  {
    UpdatableRoleList();
    s in UpdatableRoleC
  }

  /** A validated updatable role, as the datatype the rest of the model uses. */
  function ParseUpdatableRole(s: string): (r: Option<MemberRole>)
    ensures r.Some? <==> WorkspaceMemberUpdatableRoleS(s)
    ensures r.Some? ==> r.value != Owner && MemberRoleName(r.value) == s
  {
    if WorkspaceMemberUpdatableRoleS(s) then ParseMemberRole(s) else None
  }

  /** The validator's error for a value outside an enum. */
  function EnumError(field: string): ValidationError
  {
    ValidationError("The selected " + field + " is invalid", field, "enum")
  }

  /** The validator's error for a required field that is missing. */
  function RequiredError(field: string): ValidationError
  {
    ValidationError("The " + field + " field must be defined", field, "required")
  }

  /**
   * `role: WorkspaceMemberUpdatableRoleS().optional()`. Empty strings are
   * turned into null before validation, so `""` counts as absent.
   */
  function OptionalUpdatableRole(raw: Option<string>): (r: Result<Option<MemberRole>, seq<ValidationError>>)
    ensures raw.None? || raw == Some("") ==> r == Ok(None)
    ensures raw.Some? && raw.value != "" ==>
      (r.Ok? <==> WorkspaceMemberUpdatableRoleS(raw.value)) &&
      (r.Ok? ==> r.value == ParseUpdatableRole(raw.value)) &&
      (r.Err? ==> r.error == [EnumError("role")])
    ensures r.Ok? && r.value.Some? ==> r.value.value != Owner
  {
    if raw.None? || raw == Some("") then Ok(None)
    else match ParseUpdatableRole(raw.value)
      case None => Err([EnumError("role")])
      case Some(role) => Ok(Some(role))
  }

  /** `role: WorkspaceMemberUpdatableRoleS()`, required. */
  function RequiredUpdatableRole(raw: Option<string>): (r: Result<MemberRole, seq<ValidationError>>)
    ensures raw.None? || raw == Some("") ==> r == Err([RequiredError("role")])
    ensures raw.Some? && raw.value != "" ==>
      (r.Ok? <==> WorkspaceMemberUpdatableRoleS(raw.value)) &&
      (r.Ok? ==> Some(r.value) == ParseUpdatableRole(raw.value)) &&
      (r.Err? ==> r.error == [EnumError("role")])
    ensures r.Ok? ==> r.value != Owner
  {
    if raw.None? || raw == Some("") then Err([RequiredError("role")])
    else match ParseUpdatableRole(raw.value)
      case None => Err([EnumError("role")])
      case Some(role) => Ok(role)
  }
}
