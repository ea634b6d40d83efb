/**
 * The normalised result every result view hands back (`QueryResult`), and
 * the user profile the about-user query produces.
 */
module QueryResults {
  import opened Wrappers
  import opened Casts

  /** The five text fields of a user profile, as the about-user query reads them. */
  datatype UserProfile = UserProfile(firstName: string, lastName: string, email: string, phone: string, status: string)

  /**
   * `Boolean` for the existence checks, `U64` for a user id, `Json` for a
   * profile (keys first_name, last_name, email, phone, status), and
   * `Completed` for the unit outcome of a registration.
   */
  datatype QueryResult =
    | Boolean(flag: bool)
    | U64(id: U64)
    | Json(profile: UserProfile)
    | Completed(status: Result<(), string>)

  /** Reads an existence flag out of a result; anything but `Boolean(true)` reads as false. */
  function BooleanOf(r: QueryResult): (b: bool)
    ensures b <==> r == Boolean(true)
  {
    match r
    case Boolean(flag) => flag
    case _ => false
  }
}
