/** Worked cases of the validator's rules: each lemma fixes concrete values
    and states which of them the validator reports.
    The literal strings in these lemmas are bound to parameters through
    `requires x == "..."` rather than written into the `ensures` directly:
    reasoning about a function applied to a string literal inside one
    proof obligation is much more costly for the solver than the same
    reasoning about a parameter known to equal the literal. */
module ValidationExamples {
  import opened Chars
  import Email
  import opened Labels
  import opened Validation

  /** `a@b.co` and `a.b+c@sub.domain.io` match the email pattern. */
  lemma EmailAccepted(good1: string, good2: string)
    requires good1 == "a@b.co" && good2 == "a.b+c@sub.domain.io"
    ensures Email.MatchesPattern(good1) && Email.MatchesPattern(good2)
  {
    assert Email.SplitsAt(good1, 1, 3);
    assert Email.SplitsAt(good2, 5, 16);
  }

  /** `a@b` has no top-level segment; `a@@b.co` has a second `@` where
      neither the local part nor the host allows one. */
  lemma EmailRejected(bad1: string, bad2: string)
    requires bad1 == "a@b" && bad2 == "a@@b.co"
    ensures !Email.MatchesPattern(bad1) && !Email.MatchesPattern(bad2)
  {
    forall at, dot ensures !Email.SplitsAt(bad2, at, dot) {
      if 0 < at && at + 1 < dot && dot + 3 <= |bad2| && bad2[at] == '@' {
        assert !LocalClass.Allows(bad2[1]) && !HostClass.Allows(bad2[2]);
      }
    }
  }

  /** With no `D` modifier, `$` also matches before one final newline, so
      an address followed by `\n` is accepted; one followed by two is not. */
  lemma EmailTrailingNewline(s: string, t: string)
    requires s == "a@b.co\n" && t == "a@b.co\n\n"
    ensures Email.MatchesPattern(s)
    ensures !Email.MatchesPattern(t)
  {
    assert s[..|s| - 1] == "a@b.co";
    assert Email.SplitsAt(s[..|s| - 1], 1, 3);
    var u := t[..|t| - 1];
    forall at, dot ensures !Email.SplitsAt(u, at, dot) {
      if 0 < at && at + 1 < dot && dot + 3 <= |u| {
        assert !AlphaClass.Allows(u[|u| - 1]);
      }
    }
    forall at, dot ensures !Email.SplitsAt(t, at, dot) {
      if 0 < at && at + 1 < dot && dot + 3 <= |t| {
        assert !AlphaClass.Allows(t[|t| - 1]);
      }
    }
  }

  /** Letters and spaces pass the name rule; digits do not. */
  lemma NameExamples(ok: string, bad: string)
    requires ok == "Anne Marie" && bad == "Anne23"
    ensures !Violates(PersonName, ok) && Violates(PersonName, bad)
  {
    assert forall i :: 0 <= i < |ok| ==> ok[i] == ' ' || IsAsciiLetter(ok[i]);
    assert !NameClass.Allows(bad[4]);
  }

  /** Digits pass the phone rule; a hyphen does not. */
  lemma PhoneExamples(ok: string, bad: string)
    requires ok == "5551234" && bad == "555-1234"
    ensures !Violates(Phone, ok) && Violates(Phone, bad)
  {
    assert forall i :: 0 <= i < |ok| ==> IsAsciiDigit(ok[i]);
    assert !PhoneClass.Allows(bad[3]);
  }

  /** `,` and `!` are allowed in a note; `#` is not. */
  lemma NoteExamples(ok: string, bad: string)
    requires ok == "Great, thanks!" && bad == "Great #1"
    ensures !Violates(Note, ok) && Violates(Note, bad)
  {
    assert forall i :: 0 <= i < |ok| ==> ok[i] in ",! " || IsAsciiLetter(ok[i]);
    assert !NotesClass.Allows(bad[6]);
  }

  /** `-`, `,` and `.` are allowed in an address field; `_` is not. */
  lemma GenericExamples(ok: string, bad: string)
    requires ok == "New-York, Town." && bad == "New_York"
    ensures !Violates(GenericText, ok) && Violates(GenericText, bad)
  {
    assert forall i :: 0 <= i < |ok| ==> ok[i] in "-,. " || IsAsciiLetter(ok[i]);
    assert !OtherClass.Allows(bad[3]);
  }

  /** `"0"` is empty to PHP, so it is never checked, even as an email. */
  lemma ZeroIsNeverChecked(data: map<string, string>, fields: seq<string>)
    requires "shipping_email" in data && data["shipping_email"] == "0"
    ensures forall e :: e in Validate(data, fields) ==> e.field != "shipping_email"
    ensures !Email.MatchesPattern(data["shipping_email"])
  {
    EmptyValueNeverReported(data, fields, "shipping_email");
  }

  /** A digit in a first name is reported under the label "First Name". */
  lemma DigitInFirstName(data: map<string, string>, f: string)
    requires f == "shipping_first_name" && f in data && data[f] == "J0hn"
    ensures CheckField(data, f) == [FieldError(f, "First Name" + " should contain only letters and spaces.")]
  {
    assert Label(f) == "First Name";
    assert !NameClass.Allows(data[f][1]);
    NameRule(data, f);
  }

  /** A value with no `@` is not an email address; the message carries the
      label "Email". */
  lemma NoAtInEmail(data: map<string, string>, f: string)
    requires f == "shipping_email" && f in data && data[f] == "bad"
    ensures CheckField(data, f) == [FieldError(f, "Email" + " is not a valid email address.")]
  {
    assert Label(f) == "Email";
    assert !Email.MatchesPattern(data[f]);
    EmailRule(data, f);
  }

  /** A two-field list: the first field's errors, then the second's. */
  lemma TwoFieldList(data: map<string, string>, fields: seq<string>)
    requires |fields| == 2
    ensures Validate(data, fields) == CheckField(data, fields[0]) + CheckField(data, fields[1])
  {
    assert fields[..1][..0] == [];
  }

  /** One list, two failing fields: both are reported, in list order, each
      with its own label. */
  lemma EndToEnd(data: map<string, string>, fields: seq<string>)
    requires fields == ["shipping_first_name", "shipping_email"]
    requires "shipping_first_name" in data && data["shipping_first_name"] == "J0hn"
    requires "shipping_email" in data && data["shipping_email"] == "bad"
    ensures Validate(data, fields) == [
      FieldError("shipping_first_name", "First Name" + " should contain only letters and spaces."),
      FieldError("shipping_email", "Email" + " is not a valid email address.")
    ]
  {
    DigitInFirstName(data, fields[0]);
    NoAtInEmail(data, fields[1]);
    TwoFieldList(data, fields);
  }
}
