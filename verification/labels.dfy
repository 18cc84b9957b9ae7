/** The display label of a form field: a fixed table of nine known keys,
    and for every other key the key itself with `_` turned into spaces and
    its first character upper-cased (`ucfirst(str_replace('_', ' ', key))`).

    The literal strings in the example lemmas below are bound to parameters through
    `requires x == "..."` rather than written into the `ensures` directly:
    reasoning about a function applied to a string literal inside one
    proof obligation is much more costly for the solver than the same
    reasoning about a parameter known to equal the literal. */
module Labels {

  const LabelTable: map<string, string> := map[
    "shipping_first_name" := "First Name",
    "shipping_last_name" := "Last Name",
    "shipping_phone" := "Mobile Phone",
    "shipping_email" := "Email",
    "shipping_address_1" := "Street Address",
    "shipping_address_2" := "Apartment",
    "shipping_city" := "Town / City",
    "shipping_postcode" := "Postal Code",
    "customer_note" := "Order Notes"
  ]

  /** PHP's byte-wise `toupper`: only `a`-`z` change. */
  function ToUpperAscii(c: char): (u: char)
    ensures 'a' <= c <= 'z' ==> 'A' <= u <= 'Z' && u as int - c as int == 'A' as int - 'a' as int
    ensures !('a' <= c <= 'z') ==> u == c
  {
    if 'a' <= c <= 'z' then (c as int - 'a' as int + 'A' as int) as char else c
  }

  /** `str_replace('_', ' ', s)`. */
  function ReplaceUnderscores(s: string): (r: string)
    ensures |r| == |s|
    ensures forall i :: 0 <= i < |s| && s[i] == '_' ==> r[i] == ' '
    ensures forall i :: 0 <= i < |s| && s[i] != '_' ==> r[i] == s[i]
  {
    if |s| == 0 then []
    else (if s[0] == '_' then " " else [s[0]]) + ReplaceUnderscores(s[1..])
  }

  /** `ucfirst(s)`: the first character upper-cased, the rest unchanged. */
  function UcFirst(s: string): (r: string)
    ensures |r| == |s|
    ensures |s| > 0 ==> r[0] == ToUpperAscii(s[0])
    ensures forall i :: 1 <= i < |s| ==> r[i] == s[i]
  {
    if |s| == 0 then s else [ToUpperAscii(s[0])] + s[1..]
  }

  function FallbackLabel(field: string): string {
    UcFirst(ReplaceUnderscores(field))
  }

  /** `wc_get_form_field_label(field)`, with translation as the identity. */
  function Label(field: string): (r: string)
    ensures field in LabelTable ==> r == LabelTable[field]
  {
    if field in LabelTable then LabelTable[field] else FallbackLabel(field)
  }

  /** Outside the table the label is the key with `_` turned into spaces and
      its first character upper-cased, nothing else changed. */
  lemma FallbackShape(field: string)
    requires field !in LabelTable
    ensures |Label(field)| == |field|
    ensures forall i :: 1 <= i < |field| ==> Label(field)[i] == (if field[i] == '_' then ' ' else field[i])
    ensures |field| > 0 && field[0] != '_' ==> Label(field)[0] == ToUpperAscii(field[0])
    ensures |field| > 0 && field[0] == '_' ==> Label(field)[0] == ' '
  {
  }

  /** A generated label never shows an underscore. */
  lemma FallbackHasNoUnderscore(field: string)
    requires field !in LabelTable
    ensures forall i :: 0 <= i < |Label(field)| ==> Label(field)[i] != '_'
  {
    FallbackShape(field);
  }

  /** Table keys get their table value, not a generated label. */
  lemma TableLookupExample(phone: string, note: string)
    requires phone == "shipping_phone" && note == "customer_note"
    ensures Label(phone) == "Mobile Phone"
    ensures Label(note) == "Order Notes"
  {
  }

  /** A key outside the table: only the first letter is capitalised, the
      underscore becomes a space, and no other word is capitalised. */
  lemma FallbackExample(f: string)
    requires f == "shipping_country"
    ensures Label(f) == "Shipping country"
  {
    assert f !in LabelTable;
    FallbackShape(f);
    var r := Label(f);
    assert r[8] == ' ';
    assert forall i :: 1 <= i < 8 ==> r[i] == f[i];
  }
}
