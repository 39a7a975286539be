/** The permissions a user can hold inside a faction. */
module Permissions {

  datatype Permission = NoMoneyCap | MoveTroops | Build | War | Leader

  /** `Display` for a permission, which prints the variant name. */
  function Name(p: Permission): string
  {
    match p
    case NoMoneyCap => "NoMoneyCap"
    case MoveTroops => "MoveTroops"
    case Build => "Build"
    case War => "War"
    case Leader => "Leader"
  }
}
