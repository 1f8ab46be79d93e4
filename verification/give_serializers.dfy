/** The give serializers of the server: the full representation shown to a
    give's owner and to administrators, the public one with masked contact
    fields, and the contact-info representation, which carries its own copy
    of both masks. */
module GiveSerializers {
  import opened Wrappers
  import opened Text
  import opened ServerMasking
  import opened GiveModel

  /** A serialized give. The public form has no `updated_at`. */
  datatype GiveView = GiveView(
    id: nat,
    creatorId: nat,
    name: string,
    company: Option<string>,
    department: Option<string>,
    category: string,
    state: Option<string>,
    city: Option<string>,
    email: string,
    phone: string,
    description: Option<string>,
    website: Option<string>,
    isActive: bool,
    createdAt: int,
    updatedAt: Option<int>)

  /** `GiveSerializer`: every field as stored. */
  function FullGiveView(g: Give): (v: GiveView)
    ensures v.id == g.id && v.creatorId == g.user.id
    ensures v.email == g.email && v.phone == g.phone && v.isActive == g.isActive
    ensures v.updatedAt == Some(g.updatedAt)
    ensures v.name == g.name && v.company == g.company && v.department == g.department
    ensures v.category == g.category && v.state == g.state && v.city == g.city
    ensures v.description == g.description && v.website == g.website && v.createdAt == g.createdAt
  {
    GiveView(g.id, g.user.id, g.name, g.company, g.department, g.category, g.state,
             g.city, g.email, g.phone, g.description, g.website, g.isActive,
             g.createdAt, Some(g.updatedAt))
  }

  /** `PublicGiveSerializer`: the full view with `email` and `phone` replaced
      by `masked_email` and `masked_phone` (`get_email`, `get_phone`) and no
      `updated_at`. It fails exactly when `masked_email` raises. */
  function PublicGiveView(g: Give): (r: Result<GiveView, MaskError>)
    ensures r.Ok? <==> GiveMaskedEmail(g.email).Ok?
    ensures r.Ok? ==> r.value == FullGiveView(g).(email := GiveMaskedEmail(g.email).value,
                                                  phone := GiveMaskedPhone(g.phone),
                                                  updatedAt := None)
  {
    var email := GiveMaskedEmail(g.email);
    if email.Failure? then Failure(email.error)
    else
      Ok(GiveView(g.id, g.user.id, g.name, g.company, g.department, g.category, g.state,
                  g.city, email.value, GiveMaskedPhone(g.phone), g.description, g.website,
                  g.isActive, g.createdAt, None))
  }

  /** The public view of a give shows no more than the last four characters of
      its phone, and serializing an already-public view's contact fields
      again changes nothing. */
  lemma PublicViewHidesPhone(g: Give)
    requires PublicGiveView(g).Ok?
    ensures var v := PublicGiveView(g).value;
            && v.phone[..8] == PhonePrefix
            && GiveMaskedPhone(v.phone) == v.phone
            && GiveMaskedEmail(v.email) == Ok(v.email)
  {
    GiveMaskedPhoneIdempotent(g.phone);
    GiveMaskedEmailIdempotent(g.email);
  }

  /** The three keys of `ContactInfoSerializer`'s output. */
  datatype ContactInfo = ContactInfo(mobile: string, whatsapp: string, email: string)

  /** `ContactInfoSerializer.to_representation`: masks the mobile and the
      e-mail of the creator-contact dictionary with its own copies of the two
      masks, and reports the masked mobile as the WhatsApp number too. The
      copies agree with the `Give` model's masks, fallbacks included; the
      representation fails exactly when the e-mail mask raises. */
  function ContactRepresentation(instance: CreatorContact): (r: Result<ContactInfo, MaskError>)
    ensures r.Ok? <==> GiveMaskedEmail(instance.email).Ok?
    ensures r.Ok? ==> r.value.whatsapp == r.value.mobile
    ensures r.Ok? ==> r.value.mobile == GiveMaskedPhone(instance.mobile.GetOr(""))
    ensures r.Ok? ==> Ok(r.value.email) == GiveMaskedEmail(instance.email)
    ensures r.Failure? ==> r == Failure(GiveMaskedEmail(instance.email).error)
  {
    var mobile := instance.mobile;
    var email := instance.email;
    var maskedMobile :=
      if Truthy(mobile) && |mobile.value| >= 4 then "***-***-" + mobile.value[|mobile.value| - 4..]
      else "***-***-****";
    var maskedEmail: Result<string, MaskError> :=
      if email != "" then
        var parts := Split(email, '@');
        if |parts| != 2 then Failure(UnpackError(|parts|))
        else
          var username, domain := parts[0], parts[1];
          var maskedUsername :=
            if |username| <= 2 then username
            else [username[0]] + Repeat('*', |username| - 2) + [username[|username| - 1]];
          Ok(maskedUsername + "@" + domain)
      else
        Ok("***@***.com");
    if maskedEmail.Failure? then Failure(maskedEmail.error)
    else Ok(ContactInfo(maskedMobile, maskedMobile, maskedEmail.value))
  }

  /** A creator without a mobile, or with one shorter than four characters,
      gets the fixed mobile mask; otherwise the last four characters show. */
  lemma ContactMobileMask(instance: CreatorContact)
    requires ContactRepresentation(instance).Ok?
    ensures var m := ContactRepresentation(instance).value.mobile;
            && (!Truthy(instance.mobile) || |instance.mobile.value| < 4 ==> m == PhoneFallback)
            && (Truthy(instance.mobile) && |instance.mobile.value| >= 4 ==>
                  m == PhonePrefix + instance.mobile.value[|instance.mobile.value| - 4..])
  {
    var m := ContactRepresentation(instance).value.mobile;
    assert m == m[..8] + m[8..];
  }
}
