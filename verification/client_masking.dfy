/** The masking the All Gives page applies before showing a give's contact
    fields. The e-mail keeps only the length of its local part; the phone
    keeps its first two characters. */
module ClientMasking {
  import opened Wrappers
  import opened Text

  const DomainMask := "@****"
  const PhoneMask := "****"

  /** The local part the page measures: the text before the first `@`. */
  function LocalPart(email: string): string {
    FirstField(email, '@')
  }

  /** `maskEmail`: empty for a missing or empty e-mail; otherwise as many
      stars as the local part has characters (at least one, and exactly one
      when the local part is shorter than three), followed by `@****`. */
  function MaskEmail(email: Option<string>): (r: string)
    ensures !Truthy(email) ==> r == ""
    ensures Truthy(email) && |LocalPart(email.value)| < 3 ==> r == "*@****"
    ensures Truthy(email) && |LocalPart(email.value)| >= 3 ==>
              r == Repeat('*', |LocalPart(email.value)|) + DomainMask
  {
    if !Truthy(email) then ""
    else
      var user := Split(email.value, '@')[0];
      if user == "" || |user| < 3 then "*@****"
      else "*" + Repeat('*', |user| - 2) + "*@****"
  }

  /** No character of the e-mail survives masking: the result is built from
      `*` and `@` only, and has exactly one `@`, five characters from the end. */
  lemma MaskEmailAlphabet(email: Option<string>)
    requires Truthy(email)
    ensures var r := MaskEmail(email);
            && |r| >= 6 && r[|r| - 5..] == DomainMask
            && (forall i :: 0 <= i < |r| - 5 ==> r[i] == '*')
  {
  }

  /** Two e-mails mask alike exactly when their local parts are both shorter
      than three characters or have the same length: the mask depends on the
      length of the local part and on nothing else. */
  lemma MaskEmailDependsOnlyOnLocalLength(e1: Option<string>, e2: Option<string>)
    requires Truthy(e1) && Truthy(e2)
    ensures var n1, n2 := |LocalPart(e1.value)|, |LocalPart(e2.value)|;
            MaskEmail(e1) == MaskEmail(e2) <==> (n1 < 3 && n2 < 3) || n1 == n2
  {
    var n1, n2 := |LocalPart(e1.value)|, |LocalPart(e2.value)|;
    if MaskEmail(e1) == MaskEmail(e2) {
      var s1 := if n1 < 3 then 1 else n1;
      var s2 := if n2 < 3 then 1 else n2;
      assert |MaskEmail(e1)| == s1 + 5;
      assert |MaskEmail(e2)| == s2 + 5;
    }
  }

  /** `maskPhone`: empty for a missing or empty phone; otherwise the first
      two characters (all of a shorter phone) followed by `****`. */
  function MaskPhone(phone: Option<string>): (r: string)
    ensures !Truthy(phone) <==> r == ""
    ensures Truthy(phone) ==>
              var kept := if |phone.value| < 2 then |phone.value| else 2;
              && |r| == kept + 4
              && r[..kept] == phone.value[..kept]
              && r[kept..] == PhoneMask
  {
    if !Truthy(phone) then "" else Take(phone.value, 2) + "****"
  }

  /** The local part of `a@b` is `a`, whatever `b` holds. */
  lemma LocalPartOf(a: string, b: string)
    requires '@' !in a
    ensures LocalPart(a + "@" + b) == a
  {
    SplitAround(a, b, '@');
  }

  /** Worked examples of the e-mail mask. */
  lemma MaskEmailExamples(domain: string)
    ensures MaskEmail(Some("ab@" + domain)) == "*@****"
    ensures MaskEmail(Some("abcdef@" + domain)) == "******@****"
  {
    LocalPartOf("ab", domain);
    assert "ab@" + domain == "ab" + "@" + domain;
    LocalPartOf("abcdef", domain);
    assert "abcdef@" + domain == "abcdef" + "@" + domain;
    assert Repeat('*', 6) + DomainMask == "******@****";
  }

  /** Worked examples of the phone mask. */
  lemma MaskPhoneExamples()
    ensures MaskPhone(Some("9876543210")) == "98****"
    ensures MaskPhone(Some("7")) == "7****"
  {
    assert "9876543210"[..2] == "98";
  }
}
