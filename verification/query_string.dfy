/**
 * How the page reads its URL query string: Python's
 * `urllib.parse.parse_qs(query, keep_blank_values=True)`, the parser behind
 * the query parameters the page asks for. Fields are separated by '&', a
 * field is split at its first '=', and names and values are form-decoded
 * ('+' is a space, '%HH' the character with hexadecimal code HH).
 */
module QueryString {
  import Text

  datatype Field = Field(name: string, value: string)

  const HexDigits := "0123456789ABCDEF"

  function HexDigit(n: nat): char
    requires n < 16
  {
    HexDigits[n]
  }

  predicate IsHex(c: char)
  {
    ('0' <= c <= '9') || ('a' <= c <= 'f') || ('A' <= c <= 'F')
  }

  function HexValue(c: char): (n: nat)
    requires IsHex(c)
    ensures n < 16
  {
    if '0' <= c <= '9' then c as int - '0' as int
    else if 'a' <= c <= 'f' then c as int - 'a' as int + 10
    else c as int - 'A' as int + 10
  }

  lemma HexValueOfDigit(n: nat)
    requires n < 16
    ensures IsHex(HexDigit(n)) && HexValue(HexDigit(n)) == n
  {
  }

  /** Form decoding of one name or value. */
  function FormDecode(s: string): (r: string)
    ensures |r| <= |s|
    decreases |s|
  {
    if s == [] then []
    else if s[0] == '+' then [' '] + FormDecode(s[1..])
    else if s[0] == '%' && |s| >= 3 && IsHex(s[1]) && IsHex(s[2]) then
      [(16 * HexValue(s[1]) + HexValue(s[2])) as char] + FormDecode(s[3..])
    else [s[0]] + FormDecode(s[1..])
  }

  /** A text without '+' or '%' decodes to itself. */
  lemma {:induction false} FormDecodePlain(s: string)
    requires '+' !in s && '%' !in s
    ensures FormDecode(s) == s
  {
    if s != [] {
      FormDecodePlain(s[1..]);
      assert s == [s[0]] + s[1..];
    }
  }

  /** One field: split at the first '=', or a name with an empty value when there is none. */
  function ParseField(f: string): (field: Field)
    ensures '=' !in f ==> field == Field(FormDecode(f), [])
  {
    if '=' in f then
      var i := Text.IndexOf(f, '=');
      Field(FormDecode(f[..i]), FormDecode(f[i + 1..]))
    else
      Field(FormDecode(f), [])
  }

  /** `name=value` where the name has no '=' splits at the '=' that follows it. */
  lemma ParseNamedField(name: string, value: string)
    requires '=' !in name
    ensures ParseField(name + "=" + value) == Field(FormDecode(name), FormDecode(value))
  {
    Text.IndexOfAfterPrefix(name, '=', value);
    var f := name + "=" + value;
    assert f[..|name|] == name;
    assert f[|name| + 1..] == value;
  }

  /** The fields of the pieces between '&'s, empty pieces skipped. */
  function FieldsOf(pieces: seq<string>): (fields: seq<Field>)
    ensures |fields| <= |pieces|
  {
    if pieces == [] then []
    else (if pieces[0] == [] then [] else [ParseField(pieces[0])]) + FieldsOf(pieces[1..])
  }

  function Fields(query: string): seq<Field>
  {
    FieldsOf(Text.Split(query, '&'))
  }

  /** The values of the fields called `name`, in query order. */
  function ValuesOf(fields: seq<Field>, name: string): (values: seq<string>)
    ensures |values| <= |fields|
  {
    if fields == [] then []
    else (if fields[0].name == name then [fields[0].value] else []) + ValuesOf(fields[1..], name)
  }

  /** `parse_qs(query, keep_blank_values=True).get(name, [])`. */
  function Values(query: string, name: string): seq<string>
  {
    ValuesOf(Fields(query), name)
  }

  /** A query whose first field is `name=value`, with no '&' in the value, gives that value first. */
  lemma FirstValue(name: string, value: string, rest: string)
    requires '=' !in name && '&' !in name && '&' !in value
    requires FormDecode(name) == name
    ensures Values(name + "=" + value, name) == [FormDecode(value)]
    ensures Values(name + "=" + value + "&" + rest, name) != []
    ensures Values(name + "=" + value + "&" + rest, name)[0] == FormDecode(value)
  {
    var f := name + "=" + value;
    assert '&' !in f;
    ParseNamedField(name, value);
    assert Text.Split(f, '&') == [f];
    assert [f][1..] == [];
    Text.SplitCons(f, '&', rest);
    assert f + "&" + rest == f + ['&'] + rest;
    var pieces := [f] + Text.Split(rest, '&');
    assert pieces[1..] == Text.Split(rest, '&');
  }
}
