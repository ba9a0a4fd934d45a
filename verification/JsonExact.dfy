/** Exactly which values survive printing and parsing, as printed and with white space removed. */
module JsonExact {
  import opened JsonValue
  import opened JsonPrinter
  import opened JsonParser
  import opened JsonRoundTrip

  /** The parser reads `text` as `v`. */
  predicate LoadsAs(text: string, v: JSON) {
    Load(text).Value? && Load(text).json == v
  }

  // ----- what the parser can yield -----

  lemma {:induction false} EscapeBlankless(s: string)
    requires Blankless(s)
    ensures Blankless(Escape(s))
  {
    if s != "" {
      EscapeBlankless(s[1..]);
    }
  }

  lemma {:induction false} ScanYields(str: string, i: nat, val: string)
    requires NulFree(val)
    ensures Carried(Scan(str, i, val).json)
    ensures Blankless(str) && Blankless(val) ==> BlanklessValue(Scan(str, i, val).json)
    decreases Left(str, i)
  {
    var c := At(str, i);
    if c == '\"' || c == NUL {
    } else if c != '\\' {
      ScanYields(str, i + 1, val + [c]);
    } else if At(str, i + 1) != 'u' {
      ScanYields(str, i + 2, val + [Unescape(At(str, i + 1))]);
    } else if FourHex(str, i + 2) {
      ScanYields(str, i + 6, val + "\\u" + str[i + 2..i + 6]);
    }
  }

  lemma {:induction false} ItemsSnoc(items: seq<JSON>, v: JSON)
    requires CarriedItems(items) && Carried(v)
    ensures CarriedItems(items + [v])
    ensures BlanklessItems(items) && BlanklessValue(v) ==> BlanklessItems(items + [v])
  {
    if items != [] {
      assert (items + [v])[1..] == items[1..] + [v];
      ItemsSnoc(items[1..], v);
    }
  }

  lemma {:induction false} PutYields(fields: seq<Field>, key: string, v: JSON)
    requires CarriedFields(fields) && EscapedForm(key) && Carried(v)
    ensures CarriedFields(Put(fields, key, v))
    ensures BlanklessFields(fields) && Blankless(key) && BlanklessValue(v) ==> BlanklessFields(Put(fields, key, v))
  {
    hide EscapedForm, Blankless, Less;
    if fields == [] || Less(key, fields[0].key) {
      assert ([Field(key, v)] + fields)[1..] == fields;
    } else if fields[0].key == key {
      assert ([Field(key, v)] + fields[1..])[1..] == fields[1..];
    } else {
      PutYields(fields[1..], key, v);
      assert ([fields[0]] + Put(fields[1..], key, v))[1..] == Put(fields[1..], key, v);
    }
  }

  lemma KeyYields(k: JSON)
    requires Carried(k)
    ensures EscapedForm(KeyText(k))
    ensures BlanklessValue(k) ==> Blankless(KeyText(k))
  {
    if k.String? {
      if Blankless(k.s) { EscapeBlankless(k.s); }
    } else {
      assert NulFree("") && Escape("") == "";
    }
  }

  /** `r` holds a value the format can carry, without blanks if the text has none. */
  ghost predicate Yields(str: string, r: Parsed) {
    r.Value? ==> Carried(r.json) && (Blankless(str) ==> BlanklessValue(r.json))
  }

  /** Whatever the text, what is parsed from it can be carried by the format. */
  lemma {:induction false} ParseYields(str: string, o: nat)
    ensures Yields(str, ParseNext(str, o))
    decreases Left(str, o), 1
  {
    var i := SkipWs(str, o);
    var c := At(str, i);
    if c == '[' {
      ArrayYields(str, i);
    } else if c == '{' {
      ObjectYields(str, i);
    } else if c == '\"' {
      ScanYields(str, i + 1, "");
    }
  }

  lemma {:induction false} ArrayYields(str: string, o: nat)
    requires o < |str|
    ensures Yields(str, ParseArray(str, o))
    decreases Left(str, o), 0
  {
    var i := SkipWs(str, o + 1);
    if At(str, i) != ']' {
      ItemsYield(str, i, []);
    }
  }

  lemma {:induction false} ItemsYield(str: string, o: nat, acc: seq<JSON>)
    requires CarriedItems(acc) && (Blankless(str) ==> BlanklessItems(acc))
    ensures Yields(str, ParseItems(str, o, acc))
    decreases Left(str, o), 2
  {
    hide ParseNext, Carried;
    ParseYields(str, o);
    var r := ParseNext(str, o);
    if r.Value? {
      ItemsSnoc(acc, r.json);
      AfterItemYields(str, r.offset, acc + [r.json]);
    }
  }

  lemma {:induction false} AfterItemYields(str: string, p: nat, items: seq<JSON>)
    requires CarriedItems(items) && (Blankless(str) ==> BlanklessItems(items))
    ensures Yields(str, AfterItem(str, p, items))
    decreases Left(str, p), 1
  {
    hide ParseItems, SkipWs, Blankless;
    var i := SkipWs(str, p);
    if At(str, i) == ',' {
      ItemsYield(str, i + 1, items);
    }
  }

  lemma {:induction false} ObjectYields(str: string, o: nat)
    requires o < |str|
    ensures Yields(str, ParseObject(str, o))
    decreases Left(str, o), 0
  {
    var i := SkipWs(str, o + 1);
    if At(str, i) != '}' {
      FieldsYield(str, i, []);
    }
  }

  lemma {:induction false} FieldsYield(str: string, o: nat, acc: seq<Field>)
    requires CarriedFields(acc) && (Blankless(str) ==> BlanklessFields(acc))
    ensures Yields(str, ParseFields(str, o, acc))
    decreases Left(str, o), 2
  {
    hide ParseNext, Carried;
    ParseYields(str, o);
    var r := ParseNext(str, o);
    if r.Value? {
      KeyYields(r.json);
      AfterKeyYields(str, r.offset, KeyText(r.json), acc);
    }
  }

  lemma {:induction false} AfterKeyYields(str: string, p: nat, key: string, acc: seq<Field>)
    requires EscapedForm(key) && (Blankless(str) ==> Blankless(key))
    requires CarriedFields(acc) && (Blankless(str) ==> BlanklessFields(acc))
    ensures Yields(str, AfterKey(str, p, key, acc))
    decreases Left(str, p), 1
  {
    hide ParseNext, EscapedForm, Put;
    var i := SkipWs(str, p);
    if At(str, i) == ':' {
      var n := SkipWs(str, i + 1);
      ParseYields(str, n);
      var r := ParseNext(str, n);
      if r.Value? {
        PutYields(acc, key, r.json);
        AfterFieldYields(str, r.offset, Put(acc, key, r.json));
      }
    }
  }

  lemma {:induction false} AfterFieldYields(str: string, q: nat, fields: seq<Field>)
    requires CarriedFields(fields) && (Blankless(str) ==> BlanklessFields(fields))
    ensures Yields(str, AfterField(str, q, fields))
    decreases Left(str, q), 1
  {
    hide ParseFields, SkipWs, Blankless;
    var j := SkipWs(str, q);
    if At(str, j) == ',' {
      FieldsYield(str, j + 1, fields);
    }
  }

  // ----- removing white space -----

  lemma {:induction false} StripKeeps(t: string)
    requires forall k :: 0 <= k < |t| ==> !IsSpace(t[k])
    ensures Strip(t) == t
  {
    if t != "" {
      StripKeeps(t[1..]);
    }
  }

  lemma {:induction false} StripDrops(t: string)
    requires forall k :: 0 <= k < |t| ==> IsSpace(t[k])
    ensures Strip(t) == ""
  {
    if t != "" {
      StripDrops(t[1..]);
    }
  }

  lemma {:induction false} StripIsBlankless(t: string)
    ensures Blankless(Strip(t))
  {
    if t != "" {
      StripIsBlankless(t[1..]);
    }
  }

  lemma {:induction false} EscapeHasNoSpace(s: string)
    requires Blankless(s)
    ensures forall k :: 0 <= k < |Escape(s)| ==> !IsSpace(Escape(s)[k])
  {
    if s != "" {
      EscapeHasNoSpace(s[1..]);
      var e := EscapeChar(s[0]);
      assert forall k :: 0 <= k < |e| ==> !IsSpace(e[k]);
    }
  }

  /** A blankless key in escaped form holds no white space at all. */
  lemma KeyHasNoSpace(key: string)
    requires EscapedForm(key) && Blankless(key)
    ensures Strip(Quoted(key)) == Quoted(key)
  {
    var u :| NulFree(u) && Escape(u) == key;
    UnescapedBlankless(u);
    EscapeHasNoSpace(u);
    StripKeeps(Quoted(key));
  }

  lemma {:induction false} UnescapedBlankless(u: string)
    requires Blankless(Escape(u))
    ensures Blankless(u)
  {
    if u != "" {
      var e := EscapeChar(u[0]);
      assert Escape(u)[|e|..] == Escape(u[1..]);
      assert e[0] in Escape(u);
      UnescapedBlankless(u[1..]);
    }
  }

  lemma StripQuoted(s: string)
    requires Blankless(s)
    ensures Strip(Quoted(Escape(s))) == Quoted(Escape(s))
  {
    EscapeHasNoSpace(s);
    StripKeeps(Quoted(Escape(s)));
  }

  lemma StripPads(depth: nat)
    ensures Strip(Pad(depth, Spaced)) == "" && Strip(ClosePad(depth, Spaced)) == ""
  {
    PadIsSpaces(depth, Spaced);
    StripDrops(Pad(depth, Spaced));
    if depth > 0 {
      PadIsSpaces(depth - 1, Spaced);
      StripDrops(Pad(depth - 1, Spaced));
    }
  }

  lemma StripSeparators()
    ensures Strip(Comma(Spaced)) == Comma(Compact) && Strip(Colon(Spaced)) == Colon(Compact)
    ensures Strip("]") == "]" && Strip("}") == "}" && Strip("[") == "[" && Strip("{") == "{" && Strip(",") == ","
  {
    StripKeeps(","); StripKeeps("]"); StripKeeps("}"); StripKeeps("["); StripKeeps("{"); StripKeeps(":");
    StripConcat(",", " ");
    StripConcat(" ", ": ");
    StripConcat(":", " ");
    StripDrops(" ");
    assert ", " == "," + " " && " : " == " " + ": " && ": " == ":" + " ";
  }

  /** Erasing the white space of a printed blankless value leaves its compact text. */
  lemma {:induction false} StripRender(v: JSON, depth: nat)
    requires WellFormed(v) && Carried(v) && BlanklessValue(v)
    ensures Strip(Render(v, depth, Spaced)) == Render(v, depth, Compact)
    decreases v, 1
  {
    match v
    case Null => StripKeeps("null");
    case Boolean(b) => StripKeeps("true"); StripKeeps("false");
    case Integral(n) =>
      StolIntText(n);
      StripKeeps(IntText(n));
    case String(s) => StripQuoted(s);
    case Array(items) =>
      StripSeparators();
      StripConcat("[", RenderItems(items, true, depth, Spaced));
      StripItems(items, true, depth);
    case Object(fields) =>
      StripSeparators();
      StripConcat("{", RenderFields(fields, true, depth, Spaced));
      StripFields(fields, true, depth);
  }

  lemma {:induction false} StripItems(items: seq<JSON>, first: bool, depth: nat)
    requires WellFormedItems(items) && CarriedItems(items) && BlanklessItems(items)
    ensures Strip(RenderItems(items, first, depth, Spaced)) == RenderItems(items, first, depth, Compact)
    decreases items, 0
  {
    hide Strip, Render, Comma;
    StripSeparators();
    if items != [] {
      var t, tail := Render(items[0], depth + 1, Spaced), RenderItems(items[1..], false, depth, Spaced);
      StripRender(items[0], depth + 1);
      StripItems(items[1..], false, depth);
      StripConcat(if first then "" else Comma(Spaced), t + tail);
      StripConcat(t, tail);
      StripNothing();
    }
  }

  lemma StripNothing()
    ensures Strip("") == ""
  {
  }

  lemma {:induction false} StripFields(fields: seq<Field>, first: bool, depth: nat)
    requires WellFormedFields(fields) && CarriedFields(fields) && BlanklessFields(fields)
    ensures Strip(RenderFields(fields, first, depth, Spaced)) == RenderFields(fields, first, depth, Compact)
    decreases fields, 0
  {
    hide Strip, RenderField, EscapedForm, ClosePad;
    StripSeparators();
    StripPads(depth);
    if fields == [] {
      StripConcat(ClosePad(depth, Spaced), "}");
      NoPad(depth);
    } else {
      var t, tail := RenderField(fields[0], depth, Spaced), RenderFields(fields[1..], false, depth, Spaced);
      StripField(fields[0], depth);
      StripFields(fields[1..], false, depth);
      StripConcat(if first then "" else ",", t + tail);
      StripConcat(t, tail);
      StripNothing();
    }
  }

  lemma NoPad(depth: nat)
    ensures Pad(depth, Compact) == "" && ClosePad(depth, Compact) == ""
  {
  }

  lemma {:induction false} StripField(f: Field, depth: nat)
    requires WellFormed(f.value) && Carried(f.value) && BlanklessValue(f.value)
    requires EscapedForm(f.key) && Blankless(f.key)
    ensures Strip(RenderField(f, depth, Spaced)) == RenderField(f, depth, Compact)
    decreases f
  {
    hide Strip, Render, Pad, Quoted, Colon, EscapedForm;
    var p, q, c, v := Pad(depth, Spaced), Quoted(f.key), Colon(Spaced), Render(f.value, depth + 1, Spaced);
    StripPads(depth);
    NoPad(depth);
    StripSeparators();
    KeyHasNoSpace(f.key);
    StripRender(f.value, depth + 1);
    StripConcat(p, q + (c + v));
    StripConcat(q, c + v);
    StripConcat(c, v);
  }

  // ----- the exact conditions -----

  /** A bare integer does not survive: the parser wants a delimiter behind a number. */
  lemma BareIntegerIsLost(n: int)
    requires LONG_MIN <= n <= LONG_MAX
    ensures Load(IntText(n)) == Value(Null, |IntText(n)| + 1)
  {
    var t := IntText(n);
    StolIntText(n);
    assert Occurs(t, 0, t);
    OccursHead(t, 0, t);
    NumeralRun(t, 0, t);
  }

  /** Printing and parsing gives a value back exactly when the format carries it and it is not a bare
      integer. */
  lemma RoundTripExactly(v: JSON, depth: nat)
    requires WellFormed(v)
    ensures LoadsAs(Render(v, depth, Spaced), v) <==> Carried(v) && !v.Integral?
  {
    var t := Render(v, depth, Spaced);
    ParseYields(t, 0);
    if v.Integral? {
      BareIntegerIsLost(v.n);
    } else if Carried(v) {
      assert Occurs(t, 0, t);
      ParseRender(t, 0, v, depth, Spaced);
    }
  }

  /** With the white space erased it does so exactly when, besides, no string or key holds a blank or a
      vertical tab. */
  lemma StrippedRoundTripExactly(v: JSON, depth: nat)
    requires WellFormed(v)
    ensures LoadsAs(Strip(Render(v, depth, Spaced)), v) <==> Carried(v) && !v.Integral? && BlanklessValue(v)
  {
    var t := Strip(Render(v, depth, Spaced));
    ParseYields(t, 0);
    StripIsBlankless(Render(v, depth, Spaced));
    if v.Integral? {
      StripRender(v, depth);
      BareIntegerIsLost(v.n);
    } else if Carried(v) && BlanklessValue(v) {
      StripRender(v, depth);
      assert Occurs(t, 0, t);
      ParseRender(t, 0, v, depth, Compact);
    }
  }

  /** Nothing behind the text of a value has a part in reading it: the value comes back, and the parser has
      stopped right behind the text, whatever follows. */
  lemma NothingBehindMatters(v: JSON, depth: nat, more: string)
    requires WellFormed(v) && Carried(v) && !v.Integral?
    ensures var t := Render(v, depth, Spaced); Load(t + more) == Value(v, |t|)
  {
    var t := Render(v, depth, Spaced);
    assert (t + more)[0..0 + |t|] == t;
    ParseRender(t + more, 0, v, depth, Spaced);
  }

  // ----- what comes back instead -----

  /** The value with its unsigned integers as signed ones. */
  function Signed(v: JSON): JSON {
    match v
    case UIntegral(u) => Integral(u)
    case Array(items) => Array(SignedItems(items))
    case Object(fields) => Object(SignedFields(fields))
    case _ => v
  }

  function SignedItems(items: seq<JSON>): seq<JSON> {
    if items == [] then [] else [Signed(items[0])] + SignedItems(items[1..])
  }

  function SignedFields(fields: seq<Field>): seq<Field> {
    if fields == [] then [] else [Field(fields[0].key, Signed(fields[0].value))] + SignedFields(fields[1..])
  }

  /** Both are printed alike. */
  lemma {:induction false} RenderSigned(v: JSON, depth: nat)
    ensures Render(Signed(v), depth, Spaced) == Render(v, depth, Spaced)
    decreases v, 1
  {
    match v
    case Array(items) => RenderSignedItems(items, true, depth);
    case Object(fields) => RenderSignedFields(fields, true, depth);
    case _ =>
  }

  lemma {:induction false} RenderSignedItems(items: seq<JSON>, first: bool, depth: nat)
    ensures RenderItems(SignedItems(items), first, depth, Spaced) == RenderItems(items, first, depth, Spaced)
    decreases items, 0
  {
    if items != [] {
      RenderSigned(items[0], depth + 1);
      RenderSignedItems(items[1..], false, depth);
      assert SignedItems(items)[1..] == SignedItems(items[1..]);
    }
  }

  lemma {:induction false} RenderSignedFields(fields: seq<Field>, first: bool, depth: nat)
    ensures RenderFields(SignedFields(fields), first, depth, Spaced) == RenderFields(fields, first, depth, Spaced)
    decreases fields, 0
  {
    if fields != [] {
      RenderSigned(fields[0].value, depth + 1);
      RenderSignedFields(fields[1..], false, depth);
      assert SignedFields(fields)[1..] == SignedFields(fields[1..]);
    }
  }

  /** Unsigned integers come back as signed ones, where a long can hold them. */
  lemma UnsignedComesBackSigned(v: JSON, depth: nat)
    requires WellFormed(Signed(v)) && Carried(Signed(v)) && !Signed(v).Integral?
    ensures LoadsAs(Render(v, depth, Spaced), Signed(v))
  {
    RenderSigned(v, depth);
    RoundTripExactly(Signed(v), depth);
  }

  /** A string with a NUL comes back as the part before it. */
  lemma NulCutsString(u: string, rest: string, depth: nat)
    requires NulFree(u)
    ensures LoadsAs(Render(String(u + [NUL] + rest), depth, Spaced), String(u))
  {
    hide Scan, Escape;
    var t, e, w := Render(String(u + [NUL] + rest), depth, Spaced), Escape(u), Escape(rest);
    EscapeConcat(u, [NUL] + rest);
    EscapeConcat([NUL], rest);
    assert u + [NUL] + rest == u + ([NUL] + rest);
    assert Escape([NUL]) == [NUL] by { EscapeNul(); }
    assert t == "\"" + (e + ([NUL] + w)) + "\"";
    assert t[1..1 + |e|] == e && t[1 + |e|] == NUL && t[0] == '\"';
    ScanPrefix(t, 1, u, "");
    assert "" + u == u;
    assert SkipWs(t, 0) == 0;
    ScanStopsAtNul(t, 1 + |e|, u);
  }

  lemma EscapeNul()
    ensures Escape([NUL]) == [NUL]
  {
    assert [NUL][1..] == "";
    assert Escape("") == "";
  }

  lemma ScanStopsAtNul(str: string, i: nat, val: string)
    requires At(str, i) == NUL
    ensures Scan(str, i, val) == Value(String(val), i + 1)
  {
  }

  lemma {:induction false} EscapeConcat(a: string, b: string)
    ensures Escape(a + b) == Escape(a) + Escape(b)
  {
    if a == "" {
      assert a + b == b;
    } else {
      assert (a + b)[1..] == a[1..] + b;
      EscapeConcat(a[1..], b);
    }
  }
}
