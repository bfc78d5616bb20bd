/** The role check guarding the `add` and `reset` commands. */
module Gate {
  import opened Wrappers

  /** The role a caller must hold to award points or reset the board. */
  const REQUIRED_ROLE_ID: int := 1088359970527002624

  /** A guild role, as far as the check looks at it. */
  datatype Role = Role(id: int)

  /** `discord.utils.get(roles, id=id)`: the first role carrying `id`, if any. */
  function FindRole(roles: seq<Role>, id: int): (r: Option<Role>)
    ensures r.None? <==> forall i :: 0 <= i < |roles| ==> roles[i].id != id
    ensures r.Some? ==> exists i :: 0 <= i < |roles| && roles[i] == r.value && r.value.id == id
                                  && forall j :: 0 <= j < i ==> roles[j].id != id
  {
    if roles == [] then None
    else if roles[0].id == id then Some(roles[0])
    else
      var rest := FindRole(roles[1..], id);
      if rest.Some? then
        ghost var i :| 0 <= i < |roles[1..]| && roles[1..][i] == rest.value && rest.value.id == id
                       && forall j :: 0 <= j < i ==> roles[1..][j].id != id;
        assert roles[i + 1] == rest.value;
        rest
      else
        rest
  }

  /** `has_role`: the caller holds the required role. */
  function HasRole(roles: seq<Role>): (b: bool)
    ensures b <==> exists i :: 0 <= i < |roles| && roles[i].id == REQUIRED_ROLE_ID
  {
    FindRole(roles, REQUIRED_ROLE_ID).Some?
  }

}
