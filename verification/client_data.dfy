/** The JSON shapes the browser client receives from the gives API. Every
    field may be missing or `null` in JavaScript, so each one is optional;
    ids are the numeric primary keys the server assigns. */
module ClientData {
  import opened Wrappers

  /** The nested `user` object of a give (the creator). */
  datatype UserJson = UserJson(
    id: nat,
    username: Option<string>,
    firstName: Option<string>,
    lastName: Option<string>,
    profilePicture: Option<string>,
    mobile: Option<string>)

  /** One give as listed by the API. `isActive` is `None` when the JSON value
      is not a boolean; `createdAt` is the parsed creation instant. */
  datatype GiveJson = GiveJson(
    id: nat,
    user: Option<UserJson>,
    name: Option<string>,
    category: Option<string>,
    department: Option<string>,
    company: Option<string>,
    state: Option<string>,
    city: Option<string>,
    phone: Option<string>,
    email: Option<string>,
    description: Option<string>,
    website: Option<string>,
    isActive: Option<bool>,
    createdAt: Option<int>)
}
