/** JSON values, their characters and their escaped text. */
module JsonValue {

  const NUL := '\0'
  const BS := '\U{0008}'
  const FF := '\U{000C}'
  const VT := '\U{000B}'

  /** A JSON value. An object's fields stand in the order in which std::map keeps them. A number with
      a fraction or an exponent is kept as the text and the exponent it is computed from. */
  datatype JSON =
    | Null
    | Boolean(b: bool)
    | Integral(n: int)
    | UIntegral(u: nat)
    | Floating(mantissa: string, exponent: int)
    | String(s: string)
    | Array(items: seq<JSON>)
    | Object(fields: seq<Field>)

  datatype Field = Field(key: string, value: JSON)

  /** Lexicographic order of std::string, by which std::map sorts its keys. */
  predicate Less(a: string, b: string) {
    b != "" && (a == "" || a[0] < b[0] || (a[0] == b[0] && Less(a[1..], b[1..])))
  }

  lemma {:induction false} LessIsStrict(a: string, b: string, c: string)
    requires Less(a, b)
    ensures a != b && !Less(b, a)
    ensures Less(b, c) ==> Less(a, c)
  {
    if a != "" {
      if a[0] == b[0] {
        LessIsStrict(a[1..], b[1..], if c == "" then c else c[1..]);
      }
    }
  }

  /** Assigning through operator[] of a std::map. */
  function Put(fields: seq<Field>, key: string, value: JSON): seq<Field> {
    if fields == [] || Less(key, fields[0].key) then [Field(key, value)] + fields
    else if fields[0].key == key then [Field(key, value)] + fields[1..]
    else [fields[0]] + Put(fields[1..], key, value)
  }

  /** Every key of `fields` is below `key`. */
  predicate Below(fields: seq<Field>, key: string) {
    forall i :: 0 <= i < |fields| ==> Less(fields[i].key, key)
  }

  predicate Sorted(fields: seq<Field>) {
    forall i, j :: 0 <= i < j < |fields| ==> Less(fields[i].key, fields[j].key)
  }

  lemma {:induction false} PutAppends(fields: seq<Field>, key: string, value: JSON)
    requires Below(fields, key)
    ensures Put(fields, key, value) == fields + [Field(key, value)]
  {
    if fields != [] {
      LessIsStrict(fields[0].key, key, "");
      PutAppends(fields[1..], key, value);
    }
  }

  function EscapeChar(c: char): string {
    if c == '\"' then "\\\""
    else if c == '\\' then "\\\\"
    else if c == BS then "\\b"
    else if c == FF then "\\f"
    else if c == '\n' then "\\n"
    else if c == '\r' then "\\r"
    else if c == '\t' then "\\t"
    else [c]
  }

  function Escape(s: string): string {
    if s == "" then "" else EscapeChar(s[0]) + Escape(s[1..])
  }

  /** The escaping loop, left to right. */
  method JsonEscape(str: string) returns (output: string)
    ensures output == Escape(str)
  {
    output := "";
    for i := 0 to |str|
      invariant output + Escape(str[i..]) == Escape(str)
    {
      assert str[i..][0] == str[i] && str[i..][1..] == str[i + 1..];
      output := output + EscapeChar(str[i]);
    }
  }

  predicate NulFree(s: string) {
    NUL !in s
  }

  /** `key` is what escaping makes of some NUL-free string. */
  ghost predicate EscapedForm(key: string) {
    exists u :: NulFree(u) && Escape(u) == key
  }

  /** Which texts those are: every backslash starts an escape, and no character stands for itself that would
      be escaped. */
  predicate IsEscaped(key: string) {
    if key == "" then true
    else if key[0] == '\\' then |key| > 1 && key[1] in "\"\\bfnrt" && IsEscaped(key[2..])
    else key[0] != NUL && EscapeChar(key[0]) == [key[0]] && IsEscaped(key[1..])
  }

  /** The character that an escape stands for. */
  function EscapedChar(e: char): (c: char)
    requires e in "\"\\bfnrt"
    ensures c != NUL && EscapeChar(c) == ['\\', e]
  {
    if e == 'b' then BS else if e == 'f' then FF else if e == 'n' then '\n'
    else if e == 'r' then '\r' else if e == 't' then '\t' else e
  }

  lemma {:induction false} EscapeIsEscaped(u: string)
    requires NulFree(u)
    ensures IsEscaped(Escape(u))
  {
    if u != "" {
      EscapeIsEscaped(u[1..]);
      var e := EscapeChar(u[0]);
      assert (e + Escape(u[1..]))[|e|..] == Escape(u[1..]);
    }
  }

  lemma {:induction false} EscapedHasSource(key: string) returns (u: string)
    requires IsEscaped(key)
    ensures NulFree(u) && Escape(u) == key
    decreases |key|
  {
    if key == "" {
      u := "";
    } else {
      var n := if key[0] == '\\' then 2 else 1;
      var c := if n == 2 then EscapedChar(key[1]) else key[0];
      var rest := EscapedHasSource(key[n..]);
      u := [c] + rest;
      assert u[1..] == rest && key == key[..n] + key[n..];
    }
  }

  /** The computable form of the condition on keys. */
  lemma EscapedExactly(key: string)
    ensures EscapedForm(key) <==> IsEscaped(key)
  {
    if EscapedForm(key) {
      var u :| NulFree(u) && Escape(u) == key;
      EscapeIsEscaped(u);
    }
    if IsEscaped(key) {
      var u := EscapedHasSource(key);
    }
  }

  predicate IsSpace(c: char) {
    c == ' ' || c == '\t' || c == '\n' || c == '\r' || c == FF || c == VT
  }

  const LONG_MIN := -0x8000_0000_0000_0000
  const LONG_MAX := 0x7FFF_FFFF_FFFF_FFFF

  /** What a value is on the C++ side: integers are longs, keys are sorted and distinct. Values that
      hold a floating-point number are outside: their text is up to std::to_string(double). */
  predicate WellFormed(v: JSON) {
    match v
    case Integral(n) => LONG_MIN <= n <= LONG_MAX
    case Floating(_, _) => false
    case Array(items) => WellFormedItems(items)
    case Object(fields) => Sorted(fields) && WellFormedFields(fields)
    case _ => true
  }

  predicate WellFormedItems(items: seq<JSON>) {
    items == [] || (WellFormed(items[0]) && WellFormedItems(items[1..]))
  }

  predicate WellFormedFields(fields: seq<Field>) {
    fields == [] || (WellFormed(fields[0].value) && WellFormedFields(fields[1..]))
  }

  /** What the text format can carry: no unsigned integers, no NUL in a string, keys in escaped form. */
  ghost predicate Carried(v: JSON) {
    match v
    case UIntegral(_) => false
    case String(s) => NulFree(s)
    case Array(items) => CarriedItems(items)
    case Object(fields) => CarriedFields(fields)
    case _ => true
  }

  ghost predicate CarriedItems(items: seq<JSON>) {
    items == [] || (Carried(items[0]) && CarriedItems(items[1..]))
  }

  ghost predicate CarriedFields(fields: seq<Field>) {
    fields == [] || (EscapedForm(fields[0].key) && Carried(fields[0].value) && CarriedFields(fields[1..]))
  }

  /** No blank and no vertical tab, the two spaces that escaping leaves as they are. */
  predicate Blankless(s: string) {
    ' ' !in s && VT !in s
  }

  predicate BlanklessValue(v: JSON) {
    match v
    case String(s) => Blankless(s)
    case Array(items) => BlanklessItems(items)
    case Object(fields) => BlanklessFields(fields)
    case _ => true
  }

  predicate BlanklessItems(items: seq<JSON>) {
    items == [] || (BlanklessValue(items[0]) && BlanklessItems(items[1..]))
  }

  predicate BlanklessFields(fields: seq<Field>) {
    fields == [] || (Blankless(fields[0].key) && BlanklessValue(fields[0].value) && BlanklessFields(fields[1..]))
  }
}
