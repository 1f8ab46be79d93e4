/** The server's masking of contact details, as the `Give` model defines it
    (`masked_email`, `masked_phone`). The e-mail keeps the first and last
    characters of its local part and the whole domain; the phone keeps its
    last four characters. The `User` model and the contact-info serializer
    repeat the same code; their copies are modelled beside the model they
    belong to and proved equal to the definitions here. */
module ServerMasking {
  import opened Wrappers
  import opened Text

  const EmailFallback := "***@***.com"
  const PhonePrefix := "***-***-"
  const PhoneFallback := "***-***-****"

  /** `username, domain = email.split('@')` raises `ValueError` unless the
      split yields exactly two fields; `fields` is how many it yielded. */
  datatype MaskError = UnpackError(fields: nat)

  /** The masked local part: unchanged when it has at most two characters,
      otherwise its first and last characters around a run of stars. */
  function MaskLocal(u: string): (m: string)
    ensures |m| == |u|
    ensures |u| <= 2 ==> m == u
    ensures |u| > 2 ==> m[0] == u[0] && m[|u| - 1] == u[|u| - 1]
    ensures |u| > 2 ==> forall i :: 0 < i < |u| - 1 ==> m[i] == '*'
    ensures forall i :: 0 <= i < |m| ==> m[i] == '*' || m[i] in u
  {
    if |u| <= 2 then u
    else [u[0]] + Repeat('*', |u| - 2) + [u[|u| - 1]]
  }

  /** Masking a masked local part changes nothing. */
  lemma MaskLocalIdempotent(u: string)
    ensures MaskLocal(MaskLocal(u)) == MaskLocal(u)
  {
    var m := MaskLocal(u);
    if |u| > 2 {
      var mm := MaskLocal(m);
      assert forall i :: 0 <= i < |m| ==> mm[i] == m[i];
    }
  }

  /** `Give.masked_email`. An empty e-mail masks to the fixed `***@***.com`;
      any other succeeds exactly when it holds a single `@`. */
  function GiveMaskedEmail(email: string): (r: Result<string, MaskError>)
    ensures email == "" ==> r == Ok(EmailFallback)
    ensures email != "" ==> (r.Ok? <==> CountChar(email, '@') == 1)
    ensures r.Failure? ==> r.error.fields != 2
  {
    if email != "" then
      var parts := Split(email, '@');
      if |parts| != 2 then Failure(UnpackError(|parts|))
      else Ok(MaskLocal(parts[0]) + "@" + parts[1])
    else
      Ok(EmailFallback)
  }

  /** For `local@domain`, the mask is the masked local part, `@`, and the
      domain verbatim. */
  lemma {:induction false} MaskedEmailShape(local: string, domain: string)
    requires '@' !in local && '@' !in domain
    ensures GiveMaskedEmail(local + "@" + domain) == Ok(MaskLocal(local) + "@" + domain)
  {
    SplitAround(local, domain, '@');
    SplitNoSep(domain, '@');
    assert local + "@" + domain == local + ['@'] + domain;
  }

  /** Every e-mail the mask accepts is of the form `local@domain`. */
  lemma {:induction false} MaskedEmailSplits(email: string)
    requires GiveMaskedEmail(email).Ok? && email != ""
    ensures var parts := Split(email, '@');
            && |parts| == 2
            && email == parts[0] + "@" + parts[1]
  {
    var parts := Split(email, '@');
    JoinSplit(email, '@');
    assert Join(parts[1..], '@') == parts[1];
  }

  /** Masking an already-masked e-mail gives it back unchanged, the fallback
      included. */
  lemma {:induction false} GiveMaskedEmailIdempotent(email: string)
    requires GiveMaskedEmail(email).Ok?
    ensures GiveMaskedEmail(GiveMaskedEmail(email).value) == GiveMaskedEmail(email)
  {
    if email == "" {
      FallbackIsFixed(EmailFallback);
    } else {
      MaskedEmailSplits(email);
      var parts := Split(email, '@');
      var m := MaskLocal(parts[0]);
      assert '@' !in m;
      MaskedEmailShape(m, parts[1]);
      MaskLocalIdempotent(parts[0]);
    }
  }

  /** The fallback shown for an empty e-mail masks to itself. */
  lemma FallbackIsFixed(s: string)
    requires s == EmailFallback
    ensures GiveMaskedEmail(s) == Ok(s)
  {
    var local, domain := FallbackParts(s);
    MaskedEmailShape(local, domain);
  }

  lemma FallbackParts(s: string) returns (local: string, domain: string)
    requires s == EmailFallback
    ensures s == local + "@" + domain
    ensures '@' !in local && '@' !in domain
    ensures MaskLocal(local) == local
  {
    local, domain := "***", "***.com";
    assert s == local + "@" + domain;
    assert MaskLocal(local) == local;
  }

  /** `Give.masked_phone`: always twelve characters, `***-***-` followed by
      the last four characters of a phone of at least four characters, and
      `****` for any shorter one. */
  function GiveMaskedPhone(phone: string): (r: string)
    ensures |r| == 12 && r[..8] == PhonePrefix
    ensures |phone| >= 4 ==> r[8..] == phone[|phone| - 4..]
    ensures |phone| < 4 ==> r == PhoneFallback
  {
    if phone != "" && |phone| >= 4 then "***-***-" + LastN(phone, 4)
    else "***-***-****"
  }

  /** Masking a masked phone changes nothing. */
  lemma GiveMaskedPhoneIdempotent(phone: string)
    ensures GiveMaskedPhone(GiveMaskedPhone(phone)) == GiveMaskedPhone(phone)
  {
    var m := GiveMaskedPhone(phone);
    assert m == m[..8] + m[8..];
  }
}
