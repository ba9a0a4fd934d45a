/** The parser as functions from a text and an offset to a value and the offset behind it. */
module JsonParser {
  import opened JsonValue
  import opened Options

  /** What a parse yields; Exception stands for what std::stol and std::stod throw. */
  datatype Parsed = Value(json: JSON, offset: nat) | Exception {
    predicate IsFailure() { Exception? }
    function PropagateFailure(): Parsed { Exception }
    function Extract(): (JSON, nat)
      requires Value?
    { (json, offset) }
  }

  /** The character at `i`; a std::string reads as NUL at its end. */
  function At(str: string, i: nat): char {
    if i < |str| then str[i] else NUL
  }

  function Left(str: string, o: nat): nat {
    if o <= |str| then |str| - o else 0
  }

  function SkipWs(str: string, o: nat): (r: nat)
    ensures o <= r && !IsSpace(At(str, r))
    ensures o <= |str| ==> r <= |str|
    decreases Left(str, o)
  {
    if IsSpace(At(str, o)) then SkipWs(str, o + 1) else o
  }

  predicate IsDigit(c: char) {
    '0' <= c <= '9'
  }

  predicate IsHex(c: char) {
    IsDigit(c) || 'a' <= c <= 'f' || 'A' <= c <= 'F'
  }

  /** What may follow a number. */
  predicate IsDelimiter(c: char) {
    IsSpace(c) || c == ',' || c == ']' || c == '}'
  }

  // ----- strings -----

  /** The character an escape stands for; any unknown escape stands for the backslash. */
  function Unescape(e: char): char {
    if e == '\"' then '\"'
    else if e == '/' then '/'
    else if e == 'b' then BS
    else if e == 'f' then FF
    else if e == 'n' then '\n'
    else if e == 'r' then '\r'
    else if e == 't' then '\t'
    else '\\'
  }

  predicate FourHex(str: string, i: nat) {
    IsHex(At(str, i)) && IsHex(At(str, i + 1)) && IsHex(At(str, i + 2)) && IsHex(At(str, i + 3))
  }

  /** The loop of parse_string, at character `i` with `val` read so far. */
  function Scan(str: string, i: nat, val: string): (r: Parsed)
    ensures r.Value? && r.offset > i
    decreases Left(str, i)
  {
    var c := At(str, i);
    if c == '\"' || c == NUL then Value(String(val), i + 1)
    else if c != '\\' then Scan(str, i + 1, val + [c])
    else if At(str, i + 1) != 'u' then Scan(str, i + 2, val + [Unescape(At(str, i + 1))])
    else if FourHex(str, i + 2) then Scan(str, i + 6, val + "\\u" + str[i + 2..i + 6])
    else Value(String(""), i + 1)
  }

  function ParseString(str: string, o: nat): (r: Parsed)
    ensures r.Value? && r.offset > o
  {
    Scan(str, o + 1, "")
  }

  // ----- numbers -----

  predicate IsNumeral(c: char) {
    c == '-' || IsDigit(c) || c == '.'
  }

  /** The end of the run of numeral characters from `i` on. */
  function NumeralEnd(str: string, i: nat): (e: nat)
    ensures i <= e
    ensures i <= |str| ==> e <= |str|
    ensures forall k :: i <= k < e ==> IsNumeral(At(str, k))
    ensures !IsNumeral(At(str, e))
    decreases Left(str, i)
  {
    if IsNumeral(At(str, i)) then NumeralEnd(str, i + 1) else i
  }

  function DigitsEnd(str: string, i: nat): (e: nat)
    ensures i <= e
    ensures i <= |str| ==> e <= |str|
    decreases Left(str, i)
  {
    if IsDigit(At(str, i)) then DigitsEnd(str, i + 1) else i
  }

  function DigitValue(c: char): int
    requires IsDigit(c)
  {
    c as int - '0' as int
  }

  /** The number that the digits at the head of `t` spell, appended to `acc`. */
  function Accumulate(t: string, acc: nat): nat {
    if t == "" || !IsDigit(t[0]) then acc else Accumulate(t[1..], 10 * acc + DigitValue(t[0]))
  }

  /** std::stol: an optional sign, then at least one digit; a long or an exception. */
  function Stol(t: string): Option<int> {
    var negative := t != "" && t[0] == '-';
    var digits := if negative then t[1..] else t;
    if digits == "" || !IsDigit(digits[0]) then None
    else
      var n := if negative then 0 - Accumulate(digits, 0) else Accumulate(digits, 0);
      if LONG_MIN <= n <= LONG_MAX then Some(n) else None
  }

  /** std::stod accepts the text. */
  predicate StodAccepts(t: string) {
    var digits := if t != "" && t[0] == '-' then t[1..] else t;
    || (digits != "" && IsDigit(digits[0]))
    || (|digits| > 1 && digits[0] == '.' && IsDigit(digits[1]))
  }

  /** The value of the numeral `val` with the exponent text `exp`, which is empty without one. */
  function Number(val: string, exp: string, offset: nat): Parsed {
    var e := if exp == "" then Some(0) else Stol(exp);
    if e.None? then Exception
    else if '.' in val then
      if StodAccepts(val) then Value(Floating(val, e.value), offset) else Exception
    else if Stol(val).None? then Exception
    else if exp != "" then Value(Floating(val, e.value), offset)
    else Value(Integral(Stol(val).value), offset)
  }

  /** The exponent part: the character after the E is passed over whatever it is. */
  function ParseExponent(str: string, val: string, i: nat): (r: Parsed)
    requires i <= |str|
    ensures r.Value? ==> r.offset >= i
  {
    var minus := At(str, i) == '-';
    var from := if minus then i + 2 else i + 1;
    var end := DigitsEnd(str, from);
    var exp := (if minus then "-" else "") + (if from <= |str| then str[from..end] else "");
    if !IsDelimiter(At(str, end)) then Value(Null, end + 1)
    else if exp == "" then Exception
    else Number(val, exp, end)
  }

  function ParseNumber(str: string, o: nat): (r: Parsed)
    requires o <= |str|
    ensures r.Value? ==> r.offset >= o
  {
    var end := NumeralEnd(str, o);
    var c := At(str, end);
    if c == 'E' || c == 'e' then ParseExponent(str, str[o..end], end + 1)
    else if !IsDelimiter(c) then Value(Null, end + 1)
    else Number(str[o..end], "", end)
  }

  // ----- the rest -----

  predicate Occurs(str: string, o: nat, t: string) {
    o + |t| <= |str| && str[o..o + |t|] == t
  }

  function ParseBool(str: string, o: nat): Parsed {
    if Occurs(str, o, "true") then Value(Boolean(true), o + 4)
    else if Occurs(str, o, "false") then Value(Boolean(false), o + 5)
    else Value(Null, o)
  }

  function ParseNull(str: string, o: nat): Parsed {
    if Occurs(str, o, "null") then Value(Null, o + 4) else Value(Null, o)
  }

  function ParseNext(str: string, o: nat): (r: Parsed)
    ensures r.Value? ==> r.offset >= o
    decreases Left(str, o), 1
  {
    var i := SkipWs(str, o);
    var c := At(str, i);
    if c == '[' then ParseArray(str, i)
    else if c == '{' then ParseObject(str, i)
    else if c == '\"' then ParseString(str, i)
    else if c == 't' || c == 'f' then ParseBool(str, i)
    else if c == 'n' then ParseNull(str, i)
    else if IsDigit(c) || c == '-' then ParseNumber(str, i)
    else Value(Null, i)
  }

  function ParseArray(str: string, o: nat): (r: Parsed)
    requires o < |str|
    ensures r.Value? ==> r.offset >= o
    decreases Left(str, o), 0
  {
    var i := SkipWs(str, o + 1);
    if At(str, i) == ']' then Value(Array([]), i + 1) else ParseItems(str, i, [])
  }

  function ParseItems(str: string, o: nat, acc: seq<JSON>): (r: Parsed)
    ensures r.Value? ==> r.offset >= o
    decreases Left(str, o), 2
  {
    var (v, p) :- ParseNext(str, o);
    AfterItem(str, p, acc + [v])
  }

  /** What follows an item decides whether the list goes on. */
  function AfterItem(str: string, p: nat, items: seq<JSON>): (r: Parsed)
    ensures r.Value? ==> r.offset >= p
    decreases Left(str, p), 1
  {
    var i := SkipWs(str, p);
    if At(str, i) == ',' then ParseItems(str, i + 1, items)
    else if At(str, i) == ']' then Value(Array(items), i + 1)
    else Value(Array([]), i)
  }

  /** ToString of a key: the escaped text of a string, empty for anything else. */
  function KeyText(k: JSON): string {
    if k.String? then Escape(k.s) else ""
  }

  function ParseObject(str: string, o: nat): (r: Parsed)
    requires o < |str|
    ensures r.Value? ==> r.offset >= o
    decreases Left(str, o), 0
  {
    var i := SkipWs(str, o + 1);
    if At(str, i) == '}' then Value(Object([]), i + 1) else ParseFields(str, i, [])
  }

  function ParseFields(str: string, o: nat, acc: seq<Field>): (r: Parsed)
    ensures r.Value? ==> r.offset >= o
    decreases Left(str, o), 2
  {
    var (k, p) :- ParseNext(str, o);
    AfterKey(str, p, KeyText(k), acc)
  }

  function AfterKey(str: string, p: nat, key: string, acc: seq<Field>): (r: Parsed)
    ensures r.Value? ==> r.offset >= p
    decreases Left(str, p), 1
  {
    var i := SkipWs(str, p);
    if At(str, i) != ':' then Value(Object(acc), i)
    else
      var (v, q) :- ParseNext(str, SkipWs(str, i + 1));
      AfterField(str, q, Put(acc, key, v))
  }

  /** What follows a field decides whether the object goes on. */
  function AfterField(str: string, q: nat, fields: seq<Field>): (r: Parsed)
    ensures r.Value? ==> r.offset >= q
    decreases Left(str, q), 1
  {
    var j := SkipWs(str, q);
    if At(str, j) == ',' then ParseFields(str, j + 1, fields)
    else if At(str, j) == '}' then Value(Object(fields), j + 1)
    else Value(Object(fields), j)
  }

  /** JSON::Load. */
  function Load(str: string): Parsed {
    ParseNext(str, 0)
  }
}
