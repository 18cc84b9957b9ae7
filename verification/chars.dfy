/** Character classes used by the shipping-field validator, and the search a
    PCRE negated class `[^...]` performs over a value. */
module Chars {

  datatype Option<+T> = None | Some(value: T)

  predicate IsAsciiLetter(c: char) {
    ('a' <= c <= 'z') || ('A' <= c <= 'Z')
  }

  predicate IsAsciiDigit(c: char) {
    '0' <= c <= '9'
  }

  /** The characters `\s` matches when PCRE2 runs with Unicode properties
      (PHP's `/u` flag sets PCRE2_UCP): `\p{Z}` together with the horizontal
      white space list `\h` and the vertical list `\v`. That is the ASCII
      white space characters, NEL, the no-break and Unicode spaces, the
      Mongolian vowel separator (listed in `\h`), and the line and paragraph
      separators. */
  predicate IsSpace(c: char) {
    || c == '\t' || c == '\n' || c == '\U{B}' || c == '\U{C}' || c == '\r'
    || c == ' ' || c == '\U{85}' || c == '\U{A0}' || c == '\U{1680}'
    || c == '\U{180E}'
    || ('\U{2000}' <= c <= '\U{200A}')
    || c == '\U{2028}' || c == '\U{2029}' || c == '\U{202F}' || c == '\U{205F}'
    || c == '\U{3000}'
  }

  /** Among ASCII characters `\s` is exactly space, tab, line feed, carriage
      return, vertical tab and form feed; no white space character is a
      letter, a digit or one of the punctuation marks the classes list. */
  lemma SpaceIsApart(c: char)
    ensures c as int < 0x80 ==> (IsSpace(c) <==> c in " \t\n\r\U{B}\U{C}")
    ensures IsSpace(c) ==> !IsAsciiLetter(c) && !IsAsciiDigit(c) && c !in ",.-?!_%+@"
  {
  }

  /** The seven bracketed character classes that occur in the validator's
      patterns. */
  datatype CharClass =
    | NameClass    // [a-zA-Z\s]
    | PhoneClass   // [0-9]
    | OtherClass   // [a-zA-Z0-9\s,.\-]
    | NotesClass   // [a-zA-Z0-9\s,.\-?!]
    | LocalClass   // [A-Za-z0-9._%+\-]  (email local part)
    | HostClass    // [A-Za-z0-9.\-]     (email host)
    | AlphaClass   // [A-Za-z]           (email top-level segment)
  {
    predicate Allows(c: char) {
      match this
      case NameClass => IsAsciiLetter(c) || IsSpace(c)
      case PhoneClass => IsAsciiDigit(c)
      case OtherClass => IsAsciiLetter(c) || IsAsciiDigit(c) || IsSpace(c) || c in ",.-"
      case NotesClass => IsAsciiLetter(c) || IsAsciiDigit(c) || IsSpace(c) || c in ",.-?!"
      case LocalClass => IsAsciiLetter(c) || IsAsciiDigit(c) || c in "._%+-"
      case HostClass => IsAsciiLetter(c) || IsAsciiDigit(c) || c in ".-"
      case AlphaClass => IsAsciiLetter(c)
    }
  }

  /** The position of the leftmost character of `s` outside `cls`: where an
      unanchored search for `[^cls]` first matches. */
  function FirstOutside(cls: CharClass, s: string): (r: Option<nat>)
    ensures r.Some? ==> r.value < |s| && !cls.Allows(s[r.value])
    ensures r.Some? ==> forall k :: 0 <= k < r.value ==> cls.Allows(s[k])
    ensures r.None? ==> forall k :: 0 <= k < |s| ==> cls.Allows(s[k])
    decreases |s|
  {
    if |s| == 0 then None
    else if !cls.Allows(s[0]) then Some(0)
    else
      match FirstOutside(cls, s[1..])
      case None => None
      case Some(i) => Some(i + 1)
  }

  /** `preg_match('/[^cls]/', s)`: does `s` hold a character outside `cls`? */
  function HasCharOutside(cls: CharClass, s: string): (r: bool)
    ensures r <==> exists i :: 0 <= i < |s| && !cls.Allows(s[i])
  {
    FirstOutside(cls, s).Some?
  }

  /** Every character of `s` belongs to `cls`. */
  function AllIn(cls: CharClass, s: string): (r: bool)
    ensures r <==> forall i :: 0 <= i < |s| ==> cls.Allows(s[i])
  {
    !HasCharOutside(cls, s)
  }

  /** The position of the first occurrence of `c` in `s`. */
  function FirstIndexOf(s: string, c: char): (r: Option<nat>)
    ensures r.Some? ==> r.value < |s| && s[r.value] == c
    ensures r.Some? ==> forall k :: 0 <= k < r.value ==> s[k] != c
    ensures r.None? ==> forall k :: 0 <= k < |s| ==> s[k] != c
    decreases |s|
  {
    if |s| == 0 then None
    else if s[0] == c then Some(0)
    else
      match FirstIndexOf(s[1..], c)
      case None => None
      case Some(i) => Some(i + 1)
  }

  /** The position of the last occurrence of `c` in `s`. */
  function LastIndexOf(s: string, c: char): (r: Option<nat>)
    ensures r.Some? ==> r.value < |s| && s[r.value] == c
    ensures r.Some? ==> forall k :: r.value < k < |s| ==> s[k] != c
    ensures r.None? ==> forall k :: 0 <= k < |s| ==> s[k] != c
    decreases |s|
  {
    if |s| == 0 then None
    else if s[|s| - 1] == c then Some(|s| - 1)
    else LastIndexOf(s[..|s| - 1], c)
  }
}
