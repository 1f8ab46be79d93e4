/** The custom `User` account of the server: the fields the rest of the model
    reads, and the model's derived properties `full_name`, `masked_mobile`
    and `masked_email`. (`total_gives` needs the gives table and lives with
    the `Give` model.) */
module UserModel {
  import opened Wrappers
  import opened Text
  import ServerMasking

  /** An account. `passwordHash` is whatever the password hasher stored; the
      raw password is never kept. */
  datatype User = User(
    id: nat,
    username: string,
    email: string,
    firstName: string,
    lastName: string,
    mobile: Option<string>,
    chapter: Option<string>,
    isSuperadmin: bool,
    isActive: bool,
    passwordHash: string,
    profilePicture: Option<string>,
    bio: Option<string>)

  /** Primary keys are unique in the account table. */
  predicate UniqueUserIds(users: seq<User>) {
    forall i, j :: 0 <= i < j < |users| ==> users[i].id != users[j].id
  }

  /** `full_name`: first and last name joined by a space, stripped. The result
      never begins or ends with whitespace; with one name empty it is the
      other name stripped (the joining space disappears), so it is empty
      when both are; and it is the plain `first last` when both names are
      non-empty and have no whitespace at their outer ends. */
  function FullName(u: User): (r: string)
    ensures |r| > 0 ==> !IsSpace(r[0]) && !IsSpace(r[|r| - 1])
    ensures u.lastName == "" ==> r == Strip(u.firstName)
    ensures u.firstName == "" ==> r == Strip(u.lastName)
    ensures u.firstName == "" && u.lastName == "" ==> r == ""
    ensures u.firstName != "" && !IsSpace(u.firstName[0]) &&
            u.lastName != "" && !IsSpace(u.lastName[|u.lastName| - 1]) ==>
              r == u.firstName + " " + u.lastName
  {
    var joined := u.firstName + " " + u.lastName;
    FullNameOneName(u.firstName, u.lastName);
    Strip(joined)
  }

  /** With one name empty, the joining space is stripped away. */
  lemma FullNameOneName(first: string, last: string)
    ensures last == "" ==> Strip(first + " " + last) == Strip(first)
    ensures first == "" ==> Strip(first + " " + last) == Strip(last)
    ensures first == "" && last == "" ==> Strip(first + " " + last) == ""
  {
    var joined := first + " " + last;
    if last == "" {
      PaddedName(first, "", " ", joined);
    }
    if first == "" {
      PaddedName(last, " ", "", joined);
    }
  }

  lemma PaddedName(name: string, pre: string, post: string, joined: string)
    requires forall i :: 0 <= i < |pre| ==> IsSpace(pre[i])
    requires forall i :: 0 <= i < |post| ==> IsSpace(post[i])
    requires joined == pre + name + post
    ensures Strip(joined) == Strip(name)
  {
    StripIgnoresPadding(name, pre, post);
  }

  /** `User.masked_mobile`, a copy of the phone mask of the `Give` model: it
      agrees with it, a missing mobile counting as empty. */
  function MaskedMobile(u: User): (r: string)
    ensures r == ServerMasking.GiveMaskedPhone(u.mobile.GetOr(""))
  {
    if Truthy(u.mobile) && |u.mobile.value| >= 4 then
      "***-***-" + u.mobile.value[|u.mobile.value| - 4..]
    else
      "***-***-****"
  }

  /** `User.masked_email`, a copy of the e-mail mask of the `Give` model: it
      agrees with it on every string, the failing ones included. */
  function MaskedEmail(u: User): (r: Result<string, ServerMasking.MaskError>)
    ensures r == ServerMasking.GiveMaskedEmail(u.email)
  {
    if u.email != "" then
      var parts := Split(u.email, '@');
      if |parts| != 2 then Failure(ServerMasking.UnpackError(|parts|))
      else
        var username, domain := parts[0], parts[1];
        var maskedUsername :=
          if |username| <= 2 then username
          else [username[0]] + Repeat('*', |username| - 2) + [username[|username| - 1]];
        Ok(maskedUsername + "@" + domain)
    else
      Ok("***@***.com")
  }
}
