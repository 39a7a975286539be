/** A registered player and the permission check every command starts with. */
module Users {
  import opened Permissions

  datatype User = User(uuid: string, username: string, discriminator: string, faction: string, permissions: seq<Permission>)

  /** `User::permitted`: the user holds the permission itself or is a Leader. */
  predicate Permitted(u: User, p: Permission)
  {
    p in u.permissions || Leader in u.permissions
  }

  /** A Leader is permitted everything; a user with no permissions nothing. */
  lemma LeaderAndEmpty(u: User, p: Permission)
    ensures Leader in u.permissions ==> Permitted(u, p)
    ensures u.permissions == [] ==> !Permitted(u, p)
  {
  }

  /** Granting more permissions never revokes one. */
  lemma PermittedMonotone(u: User, v: User, p: Permission)
    requires forall q :: q in u.permissions ==> q in v.permissions
    ensures Permitted(u, p) ==> Permitted(v, p)
  {
  }
}
