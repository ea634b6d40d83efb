/**
 * The query-type tag every view reports, and descriptors for the request
 * views whose statement text lies outside this model (by-id, by-email,
 * about-user and register views). A descriptor stands for "the statement
 * this view produces"; the driver receives it in place of that text.
 */
module QueryViews {
  import opened Wrappers
  import opened Casts

  /** The stable tag a query view declares (`QUERY` in the source). */
  datatype QueryType = DoesUserExistById | DoesUserExistByEmail | AboutUser | LoginUser | RegisterUser

  datatype QueryView =
    | ExistsByIdView(id: U64)
    | ExistsByEmailView(email: string)
    | AboutUserView(id: U64)
    | RegisterUserView(firstName: string, lastName: string, email: string, password: string, phone: Option<string>)
}
