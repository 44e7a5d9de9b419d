/** The records the service keeps and the outcomes its handlers report. */
module Types {

  /** A byte of an HTTP header value or of the snapshot file. */
  newtype byte = x: int | 0 <= x < 256

  /** The IEEE-754 bit pattern of an `f64` price. Prices are only ever
      copied, never computed on, so their bits are all the model keeps. */
  type Price = bv64

  datatype Option<+T> = None | Some(value: T)

  /** An item record. `id` is a `usize` in the service; here it is a `nat`. */
  datatype Item = Item(id: nat, name: string, price: Price)

  /** A registered user. `password` holds the stored password hash. */
  datatype User = User(id: nat, email: string, password: string, token: Option<string>)

  /** What `register` answers: the id and the email, never the hash or the token. */
  datatype UserSummary = UserSummary(id: nat, email: string)

  /** The patch of a bulk update: only the fields that are present are written. */
  datatype UpdateItem = UpdateItem(name: Option<string>, price: Option<Price>)

  /** The body of a bulk update: the ids to patch, in request order, and the patch. */
  datatype UpdateRequest = UpdateRequest(ids: seq<nat>, item: UpdateItem)

  /** The error responses the handlers send, one per distinct message. */
  datatype Failure =
    | MissingAuthorization   // 401 "missing authorization header"
    | InvalidToken           // 401 "Invalid token"
    | SaveFailed             // 500 "Failed to save items"
    | NoSuchItem(id: nat)    // 404 "no item with id: {id}"
    | InvalidPassword        // 401 "Invalid password"
    | UserNotFound           // 404 "User not found"

  datatype Result<+T> = Ok(value: T) | Err(error: Failure)
}
