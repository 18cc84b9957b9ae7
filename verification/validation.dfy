/** `bs_run_shipping_validations`: walk an ordered list of field names, skip
    the ones whose value PHP's `empty()` treats as empty, pick one rule per
    field by its exact name, and record one (field, message) error for each
    value that breaks its rule. The error collector, which the loop only ever
    appends to, is the returned sequence. */
module Validation {
  import opened Chars
  import Email
  import opened Labels

  /** The five rules, one per field kind. */
  datatype Category = PersonName | Phone | EmailAddress | Note | GenericText

  /** One entry of the error collector: `$errors->add($field, $message)`. */
  datatype FieldError = FieldError(field: string, message: string)

  /** The shipping fields both entry points check. */
  const ShippingFields: seq<string> := [
    "shipping_first_name", "shipping_last_name", "shipping_phone", "shipping_email",
    "shipping_address_1", "shipping_address_2", "shipping_city", "shipping_postcode"
  ]

  /** The checkout entry point appends the order note to the shipping fields. */
  const CheckoutFields: seq<string> := ShippingFields + ["customer_note"]

  /** Exact name match, in the order of the if/elseif chain of
      `bs_run_shipping_validations`: the two name fields, phone, email, the
      order note; every other name, known or not, is generic. */
  function Classify(field: string): (c: Category)
    ensures c == PersonName <==> field in {"shipping_first_name", "shipping_last_name"}
    ensures c == Phone <==> field == "shipping_phone"
    ensures c == EmailAddress <==> field == "shipping_email"
    ensures c == Note <==> field == "customer_note"
  {
    if field == "shipping_first_name" || field == "shipping_last_name" then PersonName
    else if field == "shipping_phone" then Phone
    else if field == "shipping_email" then EmailAddress
    else if field == "customer_note" then Note
    else GenericText
  }

  /** PHP's `empty($data[$field])` on a string slot: the key is missing, or
      its value is `""` or `"0"`. */
  predicate IsEmptyValue(data: map<string, string>, field: string) {
    field !in data || data[field] == "" || data[field] == "0"
  }

  /** Does `value` break the rule of `cat`? For four rules, `preg_match` of a
      negated class finds a character; for email, the anchored pattern fails. */
  function Violates(cat: Category, value: string): bool {
    match cat
    case PersonName => HasCharOutside(NameClass, value)
    case Phone => HasCharOutside(PhoneClass, value)
    case EmailAddress => !Email.IsValidEmail(value)
    case Note => HasCharOutside(NotesClass, value)
    case GenericText => HasCharOutside(OtherClass, value)
  }

  /** The message recorded for a failing field; the order-note message is a
      fixed string with no label in it. */
  function Message(field: string): string {
    match Classify(field)
    case PersonName => Label(field) + " should contain only letters and spaces."
    case Phone => Label(field) + " should contain only numbers."
    case EmailAddress => Label(field) + " is not a valid email address."
    case Note => "Order Notes contains invalid characters."
    case GenericText => Label(field) + " contains invalid characters."
  }

  /** `empty()` on a string: a missing key and the empty string are empty;
      of the one-character strings only `"0"` is; no longer string is
      (so `"00"` and `" "` are checked). */
  lemma EmptyValueMeaning(data: map<string, string>, field: string)
    ensures field !in data ==> IsEmptyValue(data, field)
    ensures field in data && |data[field]| != 1 ==> (IsEmptyValue(data, field) <==> |data[field]| == 0)
    ensures field in data && |data[field]| == 1 ==> (IsEmptyValue(data, field) <==> data[field][0] == '0')
  {
  }

  /** Each rule, character by character: the name, phone, note and generic
      rules are broken by one character outside their class; the email rule
      is broken when the anchored pattern does not match. */
  lemma RuleMeaning(cat: Category, value: string)
    ensures cat == PersonName ==> (Violates(cat, value) <==>
      exists i :: 0 <= i < |value| && !IsAsciiLetter(value[i]) && !IsSpace(value[i]))
    ensures cat == Phone ==> (Violates(cat, value) <==>
      exists i :: 0 <= i < |value| && !IsAsciiDigit(value[i]))
    ensures cat == EmailAddress ==> (Violates(cat, value) <==> !Email.MatchesPattern(value))
    ensures cat == Note ==> (Violates(cat, value) <==>
      exists i :: 0 <= i < |value| && !IsAsciiLetter(value[i]) && !IsAsciiDigit(value[i])
                  && !IsSpace(value[i]) && value[i] !in ",.-?!")
    ensures cat == GenericText ==> (Violates(cat, value) <==>
      exists i :: 0 <= i < |value| && !IsAsciiLetter(value[i]) && !IsAsciiDigit(value[i])
                  && !IsSpace(value[i]) && value[i] !in ",.-")
  {
  }

  /** Every message but the order note's starts with the field's label and
      goes on past it; the order note's is a fixed text. */
  lemma MessageStartsWithLabel(field: string)
    ensures Classify(field) != Note ==>
      |Label(field)| < |Message(field)| && Message(field)[..|Label(field)|] == Label(field)
    ensures Classify(field) == Note ==> Message(field) == "Order Notes contains invalid characters."
  {
  }

  /** The field is checked and its value breaks its rule. */
  predicate Fails(data: map<string, string>, field: string) {
    !IsEmptyValue(data, field) && Violates(Classify(field), data[field])
  }

  /** Only a present, non-empty value other than `"0"` can fail, and every
      value of two or more characters is checked against its rule. */
  lemma FailsMeaning(data: map<string, string>, field: string)
    ensures Fails(data, field) ==> field in data && |data[field]| > 0 && data[field] != "0"
    ensures field in data && |data[field]| > 1 ==>
      (Fails(data, field) <==> Violates(Classify(field), data[field]))
  {
  }

  /** One iteration of the loop: at most one error, for this field. */
  function CheckField(data: map<string, string>, field: string): (r: seq<FieldError>)
    ensures |r| <= 1
    ensures IsEmptyValue(data, field) ==> r == []
    ensures forall e :: e in r ==> e.field == field && e.message == Message(field)
  {
    if Fails(data, field) then [FieldError(field, Message(field))] else []
  }

  /** The whole loop, as the errors of all but the last field followed by the
      last field's (the collector is appended to in list order). */
  function Validate(data: map<string, string>, fields: seq<string>): (r: seq<FieldError>)
    ensures |r| <= |fields|
    ensures forall e :: e in r ==> e.field in fields && Fails(data, e.field) && e.message == Message(e.field)
    decreases |fields|
  {
    if |fields| == 0 then []
    else Validate(data, fields[..|fields| - 1]) + CheckField(data, fields[|fields| - 1])
  }

  /** The loop of `bs_run_shipping_validations`, appending to the collector. */
  method RunShippingValidations(data: map<string, string>, fields: seq<string>)
    returns (errors: seq<FieldError>)
    ensures errors == Validate(data, fields)
  {
    errors := [];
    var k := 0;
    while k < |fields|
      invariant 0 <= k <= |fields|
      invariant errors == Validate(data, fields[..k])
    {
      var field := fields[k];
      if !IsEmptyValue(data, field) {
        var value := data[field];
        var cat := Classify(field);
        if Violates(cat, value) {
          errors := errors + [FieldError(field, Message(field))];
        }
      }
      assert fields[..k + 1][..k] == fields[..k];
      k := k + 1;
    }
    assert fields[..k] == fields;
  }

  /** `bs_validate_shipping_checkout_fields`: the order note, already read and
      sanitised by the host, replaces `customer_note` in the data, and the
      shipping fields and the note are checked. */
  function CheckoutErrors(data: map<string, string>, note: string): (r: seq<FieldError>)
    ensures |r| <= |CheckoutFields|
    ensures forall e :: e in r ==> e.field in CheckoutFields
    ensures forall i, j :: 0 <= i < j < |r| ==> r[i].field != r[j].field
    ensures forall f :: f in ShippingFields ==>
      ((exists i :: 0 <= i < |r| && r[i].field == f) <==> Fails(data, f))
    ensures (exists i :: 0 <= i < |r| && r[i].field == "customer_note")
            <==> note != "" && note != "0" && HasCharOutside(NotesClass, note)
  {
    var d := data["customer_note" := note];
    CheckoutFieldsDistinct();
    DistinctFieldsDistinctErrors(d, CheckoutFields);
    CheckoutReportsShippingFields(data, note);
    CheckoutReportsNote(data, note);
    Validate(d, CheckoutFields)
  }

  /** The order note is reported exactly when the note given is non-empty,
      not `"0"`, and holds a character outside the note class. */
  lemma CheckoutReportsNote(data: map<string, string>, note: string)
    ensures var r := Validate(data["customer_note" := note], CheckoutFields);
      (exists i :: 0 <= i < |r| && r[i].field == "customer_note")
      <==> note != "" && note != "0" && HasCharOutside(NotesClass, note)
  {
    var d := data["customer_note" := note];
    ReportedIff(d, CheckoutFields, "customer_note");
    assert "customer_note" in CheckoutFields;
    assert Classify("customer_note") == Note;
  }

  /** The checkout list names each field once. */
  lemma CheckoutFieldsDistinct()
    ensures NamesDistinct(CheckoutFields)
  {
  }

  /** Replacing the order note leaves a shipping field's outcome as it was
      in the host's data. */
  lemma ShippingFieldUnaffectedByNote(data: map<string, string>, note: string, f: string)
    requires f in ShippingFields
    ensures var r := Validate(data["customer_note" := note], CheckoutFields);
      (exists i :: 0 <= i < |r| && r[i].field == f) <==> Fails(data, f)
  {
    var d := data["customer_note" := note];
    ReportedIff(d, CheckoutFields, f);
    assert f != "customer_note";
    assert f in CheckoutFields;
    assert IsEmptyValue(d, f) == IsEmptyValue(data, f);
  }

  lemma CheckoutReportsShippingFields(data: map<string, string>, note: string)
    ensures var r := Validate(data["customer_note" := note], CheckoutFields);
      forall f :: f in ShippingFields ==>
        ((exists i :: 0 <= i < |r| && r[i].field == f) <==> Fails(data, f))
  {
    forall f | f in ShippingFields
      ensures var r := Validate(data["customer_note" := note], CheckoutFields);
        (exists i :: 0 <= i < |r| && r[i].field == f) <==> Fails(data, f)
    {
      ShippingFieldUnaffectedByNote(data, note, f);
    }
  }

  // ---------------------------------------------------------------------
  // The rules, one per category, stated character by character.
  // ---------------------------------------------------------------------

  /** First and last name: an error iff some character is neither an ASCII
      letter nor white space. This is the by-name form of `PersonNameRule`,
      as the two field names read in the if/elseif chain. */
  lemma NameRule(data: map<string, string>, f: string)
    requires f == "shipping_first_name" || f == "shipping_last_name"
    requires !IsEmptyValue(data, f)
    ensures CheckField(data, f) != [] <==>
      exists i :: 0 <= i < |data[f]| && !IsAsciiLetter(data[f][i]) && !IsSpace(data[f][i])
    ensures CheckField(data, f) != [] ==>
      CheckField(data, f) == [FieldError(f, Label(f) + " should contain only letters and spaces.")]
  {
    PersonNameRule(data, f);
  }

  lemma PersonNameRule(data: map<string, string>, f: string)
    requires Classify(f) == PersonName
    requires !IsEmptyValue(data, f)
    ensures CheckField(data, f) != [] <==>
      exists i :: 0 <= i < |data[f]| && !IsAsciiLetter(data[f][i]) && !IsSpace(data[f][i])
    ensures CheckField(data, f) != [] ==>
      CheckField(data, f) == [FieldError(f, Label(f) + " should contain only letters and spaces.")]
  {
  }

  /** Phone: an error iff some character is not an ASCII digit. */
  lemma PhoneRule(data: map<string, string>, f: string)
    requires f == "shipping_phone"
    requires !IsEmptyValue(data, f)
    ensures CheckField(data, f) != [] <==> exists i :: 0 <= i < |data[f]| && !('0' <= data[f][i] <= '9')
    ensures CheckField(data, f) != [] ==>
      CheckField(data, f) == [FieldError(f, Label(f) + " should contain only numbers.")]
  {
    assert Classify(f) == Phone;
  }

  /** Email: an error iff the whole value does not match the anchored pattern. */
  lemma EmailRule(data: map<string, string>, f: string)
    requires f == "shipping_email"
    requires !IsEmptyValue(data, f)
    ensures CheckField(data, f) != [] <==> !Email.MatchesPattern(data[f])
    ensures CheckField(data, f) != [] ==>
      CheckField(data, f) == [FieldError(f, Label(f) + " is not a valid email address.")]
  {
    assert Classify(f) == EmailAddress;
  }

  /** Order note: an error iff some character is outside letters, digits,
      white space and `, . - ? !`; the message carries no label. */
  lemma NoteRule(data: map<string, string>, f: string)
    requires f == "customer_note"
    requires !IsEmptyValue(data, f)
    ensures CheckField(data, f) != [] <==>
      exists i :: 0 <= i < |data[f]| && !IsAsciiLetter(data[f][i]) && !IsAsciiDigit(data[f][i])
                  && !IsSpace(data[f][i]) && data[f][i] !in ",.-?!"
    ensures CheckField(data, f) != [] ==>
      CheckField(data, f) == [FieldError(f, "Order Notes contains invalid characters.")]
  {
  }

  /** Every other name, listed or not: an error iff some character is outside
      letters, digits, white space and `, . -`. */
  lemma GenericRule(data: map<string, string>, f: string)
    requires f !in {"shipping_first_name", "shipping_last_name", "shipping_phone", "shipping_email", "customer_note"}
    requires !IsEmptyValue(data, f)
    ensures CheckField(data, f) != [] <==>
      exists i :: 0 <= i < |data[f]| && !IsAsciiLetter(data[f][i]) && !IsAsciiDigit(data[f][i])
                  && !IsSpace(data[f][i]) && data[f][i] !in ",.-"
    ensures CheckField(data, f) != [] ==>
      CheckField(data, f) == [FieldError(f, Label(f) + " contains invalid characters.")]
  {
  }

  // ---------------------------------------------------------------------
  // Properties of the whole loop.
  // ---------------------------------------------------------------------

  /** A field whose value is missing, `""` or `"0"` is never reported,
      whatever its rule, wherever it occurs in the list. */
  lemma EmptyValueNeverReported(data: map<string, string>, fields: seq<string>, f: string)
    requires IsEmptyValue(data, f)
    ensures forall e :: e in Validate(data, fields) ==> e.field != f
  {
  }

  /** Checking a list in two parts gives the first part's errors followed by
      the second's: no field's outcome depends on another's. */
  lemma {:induction false} ValidateConcat(data: map<string, string>, a: seq<string>, b: seq<string>)
    ensures Validate(data, a + b) == Validate(data, a) + Validate(data, b)
    decreases |b|
  {
    if |b| == 0 {
      assert a + b == a;
    } else {
      var b' := b[..|b| - 1];
      assert (a + b)[..|a + b| - 1] == a + b';
      assert (a + b)[|a + b| - 1] == b[|b| - 1];
      ValidateConcat(data, a, b');
    }
  }

  /** Checking a non-empty list: the first field's errors, then the rest's. */
  lemma ValidateCons(data: map<string, string>, fields: seq<string>)
    requires |fields| > 0
    ensures Validate(data, fields) == CheckField(data, fields[0]) + Validate(data, fields[1..])
  {
    assert fields == [fields[0]] + fields[1..];
    ValidateConcat(data, [fields[0]], fields[1..]);
    assert Validate(data, [fields[0]]) == CheckField(data, fields[0]) by {
      assert [fields[0]][..0] == [];
    }
  }

  /** The per-field results concatenated first to last: the reading of the
      loop in which no field's outcome depends on another's. */
  function ConcatChecks(data: map<string, string>, fields: seq<string>): seq<FieldError> {
    if |fields| == 0 then [] else CheckField(data, fields[0]) + ConcatChecks(data, fields[1..])
  }

  /** The collector ends up holding exactly the per-field results, one after
      another, in the order of the list. */
  lemma {:induction false} ValidateIsConcatenation(data: map<string, string>, fields: seq<string>)
    ensures Validate(data, fields) == ConcatChecks(data, fields)
    decreases |fields|
  {
    if |fields| > 0 {
      ValidateCons(data, fields);
      ValidateIsConcatenation(data, fields[1..]);
    }
  }

  /** The fields that fail, in list order, one entry per occurrence. */
  function FailingFields(data: map<string, string>, fields: seq<string>): (ff: seq<string>)
    ensures forall f :: f in ff ==> f in fields && Fails(data, f)
  {
    if |fields| == 0 then []
    else (if Fails(data, fields[0]) then [fields[0]] else []) + FailingFields(data, fields[1..])
  }

  /** The i-th error is for the i-th failing occurrence and carries that
      field's message: every occurrence adds at most one error, the order of
      the list is kept, and no failing field is skipped. */
  lemma {:induction false} ErrorsAreFailingFieldsInOrder(data: map<string, string>, fields: seq<string>)
    ensures var r, ff := Validate(data, fields), FailingFields(data, fields);
      |r| == |ff| && forall i :: 0 <= i < |r| ==> r[i] == FieldError(ff[i], Message(ff[i]))
    decreases |fields|
  {
    if |fields| > 0 {
      var rest := fields[1..];
      ValidateCons(data, fields);
      ErrorsAreFailingFieldsInOrder(data, rest);
      var r, rr := Validate(data, fields), Validate(data, rest);
      var ff, fr := FailingFields(data, fields), FailingFields(data, rest);
      if Fails(data, fields[0]) {
        assert r == [FieldError(fields[0], Message(fields[0]))] + rr;
        assert ff == [fields[0]] + fr;
      } else {
        assert r == rr;
        assert ff == fr;
      }
    }
  }

  /** Every failing occurrence is among the failing fields. */
  lemma {:induction false} FailingFieldsComplete(data: map<string, string>, fields: seq<string>, f: string)
    requires f in fields && Fails(data, f)
    ensures f in FailingFields(data, fields)
    decreases |fields|
  {
    if fields[0] != f {
      assert f in fields[1..];
      FailingFieldsComplete(data, fields[1..], f);
    }
  }

  /** A field is reported iff it is in the list and fails. */
  lemma ReportedIff(data: map<string, string>, fields: seq<string>, f: string)
    ensures (exists i :: 0 <= i < |Validate(data, fields)| && Validate(data, fields)[i].field == f)
            <==> f in fields && Fails(data, f)
  {
    var r := Validate(data, fields);
    if f in fields && Fails(data, f) {
      var ff := FailingFields(data, fields);
      FailingFieldsComplete(data, fields, f);
      ErrorsAreFailingFieldsInOrder(data, fields);
      var i :| 0 <= i < |ff| && ff[i] == f;
      assert r[i].field == f;
    } else {
      forall i | 0 <= i < |r| ensures r[i].field != f {
        assert r[i] in r;
      }
    }
  }

  /** No field name occurs twice in the list. */
  predicate NamesDistinct(fields: seq<string>) {
    forall i, j :: 0 <= i < j < |fields| ==> fields[i] != fields[j]
  }

  /** No field has two errors. */
  predicate ErrorFieldsDistinct(r: seq<FieldError>) {
    forall i, j :: 0 <= i < j < |r| ==> r[i].field != r[j].field
  }

  /** A list that names each field once gets at most one error per field. */
  lemma {:induction false} DistinctFieldsDistinctErrors(data: map<string, string>, fields: seq<string>)
    requires NamesDistinct(fields)
    ensures ErrorFieldsDistinct(Validate(data, fields))
    decreases |fields|
  {
    if |fields| > 0 {
      var front, last := fields[..|fields| - 1], fields[|fields| - 1];
      assert NamesDistinct(front) by {
        forall i, j | 0 <= i < j < |front| ensures front[i] != front[j] {
          assert front[i] == fields[i] && front[j] == fields[j];
        }
      }
      DistinctFieldsDistinctErrors(data, front);
      assert last !in front by {
        forall k | 0 <= k < |front| ensures front[k] != last {
          assert front[k] == fields[k];
        }
      }
      var rf, rl := Validate(data, front), CheckField(data, last);
      var r := rf + rl;
      assert Validate(data, fields) == r;
      forall i, j | 0 <= i < j < |r| ensures r[i].field != r[j].field {
        if j < |rf| {
          assert r[i] == rf[i] && r[j] == rf[j];
        } else {
          assert j == |rf| && i < |rf|;
          assert r[j] == rl[0] && r[j].field == last;
          assert r[i] == rf[i] && r[i] in rf && r[i].field in front;
        }
      }
    }
  }

  /** The label table has nine keys and covers every checkout field. */
  lemma LabelTableCoversCheckoutFields()
    ensures |LabelTable| == 9
    ensures forall f :: f in CheckoutFields ==> f in LabelTable
    ensures LabelTable.Keys == set f | f in CheckoutFields
  {
  }
}
