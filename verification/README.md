# Shipping-field validation, modelled in Dafny

This project models the shipping-field validator of a WooCommerce plugin
snippet. The snippet rejects checkout and account-address values that hold
disallowed characters.

The validator is `bs_run_shipping_validations`. It walks an ordered list of
field names. It skips every field whose value PHP's `empty()` treats as empty:
a missing key, `""` or `"0"`. It then picks exactly one rule by exact name
match, in this order:

- the first and last name fields;
- the phone field;
- the email field;
- the order note (`customer_note`);
- every other name, listed or not.

For each value that breaks its rule, it appends one (field, message) pair to
the error collector. The label helper `wc_get_form_field_label` supplies the
field name inside the messages. It looks the key up in a nine-entry table.
For any other key it replaces `_` with a space and upper-cases the first
character.

Modules:

- `Chars` (chars.dfy): the ASCII letter and digit classes, white space, and
  the seven bracketed character classes of the patterns. It also holds the
  search that `preg_match` runs for a negated class `[^...]`.
- `Email` (email.dfy): the anchored email pattern, given twice. `MatchesPattern`
  is the set of strings the pattern describes, as a split into local part,
  `@`, host, `.` and top-level segment. `IsValidEmail` is an explicit
  decision: take the first `@`, then the last `.` after it. Both directions
  of their agreement are proved, including what PCRE's `$` does when there
  is no `D` modifier.
- `Labels` (labels.dfy): the label table and the
  `ucfirst(str_replace('_', ' ', key))` fallback, with one worked case of
  each.
- `Validation` (validation.dfy): rule selection, the five rules, the
  per-field step, the whole loop (a recursive function and a loop method
  proved equal to it), the checkout entry point, and the lemmas about the
  loop.
- `ValidationExamples` (validation_examples.dfy): worked cases for every
  rule and a two-field run.

The error collector is the returned `seq<FieldError>`, because
`bs_run_shipping_validations` only ever appends to it. The validator is a pure function of the data and the
list, so two calls with the same inputs give the same errors in the same
order. The field-to-value map is a `map<string, string>`.
Translation with `__()` is the identity.

Two facts about the code are easy to misread:

- The name, note and generic classes allow ASCII letters `a-zA-Z` only. The
  `/u` flag does not widen them; it only makes `\s` match Unicode white space.
- The label table has nine keys. `customer_note` is one of them.

## Model

| member | source | states |
|---|---|---|
| Chars.HasCharOutside | validation.php:56-60 | `preg_match` of a negated class reports a hit exactly when some character of the value lies outside the class |
| Chars.FirstOutside | validation.php:68 | the position found is the leftmost character outside the class; everything before it is inside; no position means every character is inside |
| Chars.AllIn | validation.php:58 | a run of pattern characters: true exactly when every character belongs to the class |
| Email.IsEmailBody | validation.php:58 | the first-`@`/last-`.` decision accepts a string exactly when the pattern body `L+@H+\.A{2,}` matches all of it |
| Email.IsValidEmail | validation.php:58 | accepted exactly when the anchored pattern matches; with no `D` modifier this allows the address plus one final newline |
| Email.DecisionComplete | validation.php:58 | any match of the pattern puts its `@` at the first `@` and its `.` at the last `.` of the host, so the decision's conditions hold there |
| Email.DecisionSound | validation.php:58 | when the decision's conditions hold at the first `@` and the last `.`, the pattern matches |
| Labels.Label | validation.php:96-109 | a key in the nine-entry table gets its table value |
| Labels.FallbackShape | validation.php:108 | any other key gets a label of the same length: every `_` is turned into a space, the first character is ASCII-upper-cased, and nothing else changes |
| Labels.ReplaceUnderscores | validation.php:108 | `str_replace('_', ' ', …)` keeps the length, turns each `_` into a space and keeps every other character |
| Labels.UcFirst | validation.php:108 | `ucfirst` keeps the length, upper-cases only an ASCII first letter and keeps the rest |
| Labels.ToUpperAscii | validation.php:108 | only `a`-`z` change, each to its upper-case letter |
| Labels.FallbackHasNoUnderscore | validation.php:108 | a generated label never shows an underscore |
| Labels.TableLookupExample | validation.php:97-107 | `shipping_phone` gives "Mobile Phone" and `customer_note` gives "Order Notes" |
| Labels.FallbackExample | validation.php:108 | `shipping_country` gives "Shipping country": only the first letter is capitalised |
| Chars.SpaceIsApart | validation.php:56-60 | among ASCII characters `\s` is exactly space, tab, line feed, carriage return, vertical tab and form feed; no white space character is a letter, a digit or a punctuation mark the classes list |
| Validation.EmptyValueMeaning | validation.php:63 | `empty()` on a string: a missing key and `""` are empty; of one-character values only `"0"` is; no longer value is, so `"00"` and `" "` are checked |
| Validation.RuleMeaning | validation.php:56-90 | each rule character by character: the name rule is broken by a character that is neither an ASCII letter nor white space, the phone rule by a non-digit, the note and generic rules by a character outside letters, digits, white space and their punctuation; the email rule is broken exactly when the anchored pattern does not match |
| Validation.MessageStartsWithLabel | validation.php:69-89 | every message but the order note's starts with the field's label and goes on past it; the order note's is the fixed text "Order Notes contains invalid characters." |
| Validation.FailsMeaning | validation.php:63-90 | only a present value other than `""` and `"0"` can fail, and every value of two or more characters is checked against its rule |
| Validation.Classify | validation.php:67-87 | each special rule is chosen exactly for its field names, and every other name falls to the generic rule |
| Validation.CheckField | validation.php:63-91 | one field adds at most one error, none when its value is empty, and any error carries that field and its message |
| Validation.Validate | validation.php:62-92 | no more errors than listed fields; every error names a listed field whose value is non-empty and breaks its rule, with that field's message |
| Validation.RunShippingValidations | validation.php:55-93 | the appending loop leaves the collector equal to the errors of the whole list |
| Validation.CheckoutErrors | validation.php:5-23 | the checkout entry point reports only checkout fields, never one field twice; each shipping field is reported exactly when it fails in the host's data; the order note is reported exactly when the note is non-empty, not `"0"` and holds a character outside the note class |
| Validation.CheckoutFieldsDistinct | validation.php:6-20 | the checkout list names each of its nine fields once |
| Validation.ShippingFieldUnaffectedByNote | validation.php:18-22 | writing the order note into the data leaves each shipping field reported exactly when it fails in the host's data |
| Validation.CheckoutReportsShippingFields | validation.php:18-22 | the same, for all eight shipping fields at once |
| Validation.CheckoutReportsNote | validation.php:18-22 | the order note is reported exactly when the note given is non-empty, not `"0"`, and holds a character outside the note class |
| Validation.DistinctFieldsDistinctErrors | validation.php:62-92 | a list that names each field once never gets two errors for one field |
| Validation.NameRule | validation.php:67-70 | a non-empty first or last name is reported exactly when some character is neither an ASCII letter nor white space, with "Label should contain only letters and spaces." |
| Validation.PersonNameRule | validation.php:67-70 | the name rule for every field the classifier sends to it: reported exactly when some character is neither an ASCII letter nor white space |
| Validation.PhoneRule | validation.php:72-75 | a non-empty phone is reported exactly when some character is not `0`-`9`, with "Label should contain only numbers." (the label is "Mobile Phone") |
| Validation.EmailRule | validation.php:77-80 | a non-empty email is reported exactly when the anchored pattern fails, with "Label is not a valid email address." (the label is "Email") |
| Validation.NoteRule | validation.php:82-85 | a non-empty note is reported exactly when some character is outside letters, digits, white space and `, . - ? !`, with the fixed message "Order Notes contains invalid characters." |
| Validation.GenericRule | validation.php:87-90 | any other non-empty field is reported exactly when some character is outside letters, digits, white space and `, . -`, with "Label contains invalid characters." |
| Validation.EmptyValueNeverReported | validation.php:63-65 | a field whose value is missing, `""` or `"0"` is never reported, whatever its rule |
| Validation.ValidateConcat | validation.php:62-92 | checking two lists one after the other gives the first list's errors followed by the second's |
| Validation.ValidateCons | validation.php:62-92 | a non-empty list gives the first field's errors followed by the rest's |
| Validation.ValidateIsConcatenation | validation.php:62-92 | the result is the per-field results concatenated in list order |
| Validation.ErrorsAreFailingFieldsInOrder | validation.php:62-92 | the i-th error belongs to the i-th failing occurrence and carries its message: one error per failing occurrence, list order kept, nothing skipped |
| Validation.FailingFieldsComplete | validation.php:62-92 | every listed field that fails is among the failing occurrences |
| Validation.ReportedIff | validation.php:62-92 | a field is reported exactly when it is listed and fails |
| Validation.LabelTableCoversCheckoutFields | validation.php:97-107 | the label table's keys are exactly the nine checkout fields |
| ValidationExamples.EmailAccepted | validation.php:58 | `a@b.co` and `a.b+c@sub.domain.io` match the pattern |
| ValidationExamples.EmailRejected | validation.php:58 | `a@b` and `a@@b.co` do not match the pattern |
| ValidationExamples.EmailTrailingNewline | validation.php:58 | `a@b.co` followed by one newline matches; followed by two it does not |
| ValidationExamples.NameExamples | validation.php:56 | "Anne Marie" passes the name rule; "Anne23" breaks it |
| ValidationExamples.PhoneExamples | validation.php:57 | "5551234" passes the phone rule; "555-1234" breaks it |
| ValidationExamples.NoteExamples | validation.php:60 | "Great, thanks!" passes the note rule; "Great #1" breaks it |
| ValidationExamples.GenericExamples | validation.php:59 | "New-York, Town." passes the generic rule; "New_York" breaks it |
| ValidationExamples.ZeroIsNeverChecked | validation.php:63 | an email value of `"0"` fails the pattern but is never reported, because it counts as empty |
| ValidationExamples.DigitInFirstName | validation.php:67-70 | "J0hn" as a first name is reported under the label "First Name" |
| ValidationExamples.NoAtInEmail | validation.php:77-80 | "bad" as an email is reported under the label "Email" |
| ValidationExamples.TwoFieldList | validation.php:62-92 | a two-field list gives the first field's errors followed by the second's |
| ValidationExamples.EndToEnd | validation.php:62-92 | a bad first name and a bad email give two errors, in list order |

## Left out

- Hook registration with `add_action` (validation.php:2-3) is framework wiring.
- Reading `$_POST` with `sanitize_text_field` and `wp_unslash` (validation.php:18, 45) is request I/O. It calls library code that is not part of this model. The data map and the order note are parameters, already sanitised.
- The account-edit entry point `bs_validate_shipping_account_fields` (validation.php:25-53) is not modelled as a function. It consists of an early return for non-shipping addresses, the `$_POST` reads, a fresh `WP_Error`, and the joined `wc_add_notice`. Its field list is the same as `Validation.CheckoutFields`. A field it cannot read gets `""`, which the model treats like a missing key. So its validation step is `RunShippingValidations` over that list.
- `WP_Error`, `has_errors`, `get_error_messages`, `implode('<br>', …)` and `wc_add_notice` are the host's error and notice display. They are not modelled.
- The `__()` translation wrapper is treated as the identity.
- The `function_exists` guard (validation.php:95) is left out. The model always uses the local label function.
- Chars.IsSpace lists the characters PCRE2's `\s` matches under PCRE2_UCP, which PHP's `/u` sets: `\p{Z}`, `\h` and `\v` for the Unicode version the library was built with. A PCRE2 built on a different Unicode version could differ in characters outside ASCII. The rule lemmas are stated in terms of `IsSpace`, so they do not depend on which characters the list holds.
- `preg_match` returns `false` on a value that is not valid UTF-8, and the code treats that as "no match". This is not modelled, because a Dafny `string` cannot hold invalid UTF-8.
- PHP's `empty()` is modelled for string values only. The data map holds strings only.
- Labels.UcFirst upper-cases ASCII `a`-`z` only. That is `ucfirst` from PHP 8.2 on, and in earlier versions under the "C" locale. Case mapping under another `LC_CTYPE` set with `setlocale` before PHP 8.2 is not modelled.
