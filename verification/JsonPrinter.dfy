/** The printer: what dump writes, and what is left of it without white space. */
module JsonPrinter {
  import opened JsonValue

  /** std::to_string of a non-negative integer. */
  function Digits(n: nat): (t: string)
    ensures t != ""
  {
    if n < 10 then [('0' as int + n) as char] else Digits(n / 10) + [('0' as int + n % 10) as char]
  }

  function IntText(n: int): string {
    if n < 0 then "-" + Digits(-n) else Digits(n)
  }

  // The layouts a text can have: as dump writes it, or with the white space between tokens removed.
  datatype Layout = Spaced | Compact

  function Pad(depth: nat, w: Layout): string {
    if w == Compact || depth == 0 then "" else "  " + Pad(depth - 1, w)
  }

  /** The padding before a closing brace: one level less. */
  function ClosePad(depth: nat, w: Layout): string {
    if depth == 0 then "" else Pad(depth - 1, w)
  }

  function Comma(w: Layout): string {
    if w == Spaced then ", " else ","
  }

  function Colon(w: Layout): string {
    if w == Spaced then " : " else ":"
  }

  function Quoted(t: string): string {
    "\"" + t + "\""
  }

  function Render(v: JSON, depth: nat, w: Layout): string
    decreases v, 1
  {
    match v
    case Null => "null"
    case Boolean(b) => if b then "true" else "false"
    case Integral(n) => IntText(n)
    case UIntegral(u) => Digits(u)
    case Floating(_, _) => ""
    case String(s) => Quoted(Escape(s))
    case Array(items) => "[" + RenderItems(items, true, depth, w)
    case Object(fields) => "{" + RenderFields(fields, true, depth, w)
  }

  /** The items, each but the very first behind its comma, and the closing bracket. */
  function RenderItems(items: seq<JSON>, first: bool, depth: nat, w: Layout): string
    decreases items, 0
  {
    if items == [] then "]"
    else (if first then "" else Comma(w)) + (Render(items[0], depth + 1, w) + RenderItems(items[1..], false, depth, w))
  }

  /** The fields, each but the very first behind its comma, and the closing brace. */
  function RenderFields(fields: seq<Field>, first: bool, depth: nat, w: Layout): string
    decreases fields, 0
  {
    if fields == [] then ClosePad(depth, w) + "}"
    else (if first then "" else ",") + (RenderField(fields[0], depth, w) + RenderFields(fields[1..], false, depth, w))
  }

  function RenderField(f: Field, depth: nat, w: Layout): string
    decreases f, 2
  {
    Pad(depth, w) + (Quoted(f.key) + (Colon(w) + Render(f.value, depth + 1, w)))
  }

  /** dump(depth). The value holds no floating-point number. */
  method Dump(v: JSON, depth: nat) returns (s: string)
    requires WellFormed(v)
    ensures s == Render(v, depth, Spaced)
    decreases v, 1
  {
    var pad := "";
    for i := 0 to depth
      invariant pad == Pad(i, Spaced)
    {
      PadSnoc(i);
      pad := pad + "  ";
    }
    match v
    case Null => s := "null";
    case Boolean(b) => s := if b then "true" else "false";
    case Integral(n) => s := IntText(n);
    case UIntegral(u) => s := Digits(u);
    case String(t) =>
      var e := JsonEscape(t);
      s := "\"" + e + "\"";
    case Array(items) => s := DumpArray(items, depth);
    case Object(fields) => s := DumpObject(fields, depth, pad);
  }

  method DumpArray(items: seq<JSON>, depth: nat) returns (s: string)
    requires WellFormedItems(items)
    ensures s == "[" + RenderItems(items, true, depth, Spaced)
    decreases items, 0
  {
    s := "[";
    var skip := true;
    for i := 0 to |items|
      invariant skip == (i == 0) && WellFormedItems(items[i..])
      invariant s + RenderItems(items[i..], skip, depth, Spaced) == "[" + RenderItems(items, true, depth, Spaced)
    {
      ghost var before, rest := s, RenderItems(items[i + 1..], false, depth, Spaced);
      assert items[i..][0] == items[i] && items[i..][1..] == items[i + 1..];
      if !skip { s := s + ", "; }
      var t := Dump(items[i], depth + 1);
      s := s + t;
      assert s + rest == before + RenderItems(items[i..], skip, depth, Spaced) by {
        Shift(before, if skip then "" else ", ", t, rest);
      }
      skip := false;
    }
    s := s + "]";
  }

  method DumpObject(fields: seq<Field>, depth: nat, pad: string) returns (s: string)
    requires WellFormedFields(fields) && pad == Pad(depth, Spaced)
    ensures s == "{" + RenderFields(fields, true, depth, Spaced)
    decreases fields, 0
  {
    s := "{";
    var skip := true;
    for i := 0 to |fields|
      invariant skip == (i == 0) && WellFormedFields(fields[i..])
      invariant s + RenderFields(fields[i..], skip, depth, Spaced) == "{" + RenderFields(fields, true, depth, Spaced)
    {
      ghost var before, rest := s, RenderFields(fields[i + 1..], false, depth, Spaced);
      assert fields[i..][0] == fields[i] && fields[i..][1..] == fields[i + 1..];
      if !skip { s := s + ","; }
      var t := Dump(fields[i].value, depth + 1);
      FieldText(fields[i], depth, t);
      s := s + (pad + "\"" + fields[i].key + "\" : " + t);
      assert s + rest == before + RenderFields(fields[i..], skip, depth, Spaced) by {
        Shift(before, if skip then "" else ",", RenderField(fields[i], depth, Spaced), rest);
      }
      skip := false;
    }
    s := s + ((if depth == 0 then "" else pad[2..]) + "}");
  }

  lemma FieldText(f: Field, depth: nat, t: string)
    requires t == Render(f.value, depth + 1, Spaced)
    ensures Pad(depth, Spaced) + "\"" + f.key + "\" : " + t == RenderField(f, depth, Spaced)
  {
    assert "\" : " == "\"" + " : ";
  }

  lemma Shift(a: string, b: string, c: string, d: string)
    ensures a + b + c + d == a + (b + (c + d))
  {
  }

  lemma {:induction false} PadSnoc(depth: nat)
    ensures Pad(depth + 1, Spaced) == Pad(depth, Spaced) + "  "
  {
    if depth > 0 {
      PadSnoc(depth - 1);
    }
  }

  /** Erasing every white-space character of a text. */
  function Strip(t: string): string {
    if t == "" then "" else if IsSpace(t[0]) then Strip(t[1..]) else [t[0]] + Strip(t[1..])
  }

  lemma {:induction false} StripConcat(a: string, b: string)
    ensures Strip(a + b) == Strip(a) + Strip(b)
  {
    if a == "" {
      assert a + b == b;
    } else {
      assert (a + b)[1..] == a[1..] + b;
      StripConcat(a[1..], b);
    }
  }
}
