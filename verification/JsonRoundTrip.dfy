/** Parsing undoes printing, with and without the white space between tokens. */
module JsonRoundTrip {
  import opened JsonValue
  import opened Options
  import opened JsonPrinter
  import opened JsonParser

  lemma OccursSplit(str: string, o: nat, a: string, b: string)
    requires Occurs(str, o, a + b)
    ensures Occurs(str, o, a) && Occurs(str, o + |a|, b)
  {
    var s := str[o..o + |a| + |b|];
    assert s == a + b;
    assert str[o..o + |a|] == s[..|a|];
    assert str[o + |a|..o + |a| + |b|] == s[|a|..];
  }

  lemma OccursHead(str: string, o: nat, t: string)
    requires Occurs(str, o, t) && t != ""
    ensures At(str, o) == t[0] && Occurs(str, o + 1, t[1..])
  {
    assert t == [t[0]] + t[1..];
    OccursSplit(str, o, [t[0]], t[1..]);
    assert str[o..o + 1][0] == t[0];
  }

  lemma {:induction false} SkipSpaces(str: string, o: nat, t: string)
    requires Occurs(str, o, t)
    requires forall k :: 0 <= k < |t| ==> IsSpace(t[k])
    requires !IsSpace(At(str, o + |t|))
    ensures SkipWs(str, o) == o + |t|
    decreases |t|
  {
    if t != "" {
      OccursHead(str, o, t);
      SkipSpaces(str, o + 1, t[1..]);
    }
  }

  lemma {:induction false} PadIsSpaces(depth: nat, w: Layout)
    ensures forall k :: 0 <= k < |Pad(depth, w)| ==> IsSpace(Pad(depth, w)[k])
  {
    if w == Spaced && depth > 0 {
      PadIsSpaces(depth - 1, w);
    }
  }

  lemma SkipNothing(str: string, o: nat)
    requires !IsSpace(At(str, o))
    ensures SkipWs(str, o) == o
  {
  }

  lemma SkipTwice(str: string, o: nat)
    ensures SkipWs(str, SkipWs(str, o)) == SkipWs(str, o)
  {
  }

  /** Leading white space makes no difference to a value, an item list or a field list. */
  lemma NextSkips(str: string, o: nat, a: nat)
    requires SkipWs(str, o) == SkipWs(str, a)
    ensures ParseNext(str, o) == ParseNext(str, a)
  {
  }

  lemma ItemsSkip(str: string, o: nat, a: nat, acc: seq<JSON>)
    requires SkipWs(str, o) == SkipWs(str, a)
    ensures ParseItems(str, o, acc) == ParseItems(str, a, acc)
  {
    NextSkips(str, o, a);
    hide ParseNext, SkipWs, AfterItem;
  }

  lemma FieldsSkip(str: string, o: nat, a: nat, acc: seq<Field>)
    requires SkipWs(str, o) == SkipWs(str, a)
    ensures ParseFields(str, o, acc) == ParseFields(str, a, acc)
  {
    NextSkips(str, o, a);
    hide ParseNext, SkipWs, AfterKey, KeyText;
  }

  // ----- strings -----

  /** One escaped character is read back as the character. */
  lemma ScanChar(str: string, i: nat, c: char, acc: string)
    requires c != NUL && Occurs(str, i, EscapeChar(c))
    ensures Scan(str, i, acc) == Scan(str, i + |EscapeChar(c)|, acc + [c])
  {
    var e := EscapeChar(c);
    OccursHead(str, i, e);
    if |e| == 2 {
      OccursHead(str, i + 1, e[1..]);
    }
  }

  /** Reading the escaped text of a NUL-free string adds the string to what was read so far. */
  lemma {:induction false} ScanPrefix(str: string, i: nat, u: string, acc: string)
    requires NulFree(u) && Occurs(str, i, Escape(u))
    ensures Scan(str, i, acc) == Scan(str, i + |Escape(u)|, acc + u)
    decreases |u|
  {
    hide Occurs, EscapeChar, Scan;
    if u == "" {
      assert acc + u == acc;
    } else {
      var e, rest := EscapeChar(u[0]), Escape(u[1..]);
      OccursSplit(str, i, e, rest);
      ScanChar(str, i, u[0], acc);
      assert acc + u == acc + [u[0]] + u[1..];
      ScanPrefix(str, i + |e|, u[1..], acc + [u[0]]);
    }
  }

  /** With the closing quote it gives the string back. */
  lemma ScanEscaped(str: string, i: nat, u: string, acc: string)
    requires NulFree(u) && Occurs(str, i, Escape(u) + "\"")
    ensures Scan(str, i, acc) == Value(String(acc + u), i + |Escape(u)| + 1)
  {
    hide Occurs, Escape;
    OccursSplit(str, i, Escape(u), "\"");
    ScanPrefix(str, i, u, acc);
    OccursHead(str, i + |Escape(u)|, "\"");
  }

  lemma ParseQuoted(str: string, o: nat, u: string)
    requires NulFree(u) && Occurs(str, o, Quoted(Escape(u)))
    ensures ParseNext(str, o) == Value(String(u), o + |Quoted(Escape(u))|)
  {
    hide Occurs, Escape, Scan;
    var e := Escape(u);
    assert Quoted(e) == "\"" + (e + "\"");
    OccursHead(str, o, Quoted(e));
    OccursSplit(str, o, "\"", e + "\"");
    ScanEscaped(str, o + 1, u, "");
    assert "" + u == u;
    assert SkipWs(str, o) == o;
  }

  // ----- integers -----

  predicate AllDigits(t: string) {
    forall k :: 0 <= k < |t| ==> IsDigit(t[k])
  }

  lemma {:induction false} AccumulateSnoc(t: string, c: char, acc: nat)
    requires AllDigits(t) && IsDigit(c)
    ensures Accumulate(t + [c], acc) == 10 * Accumulate(t, acc) + DigitValue(c)
    decreases |t|
  {
    if t == "" {
      assert t + [c] == [c];
    } else {
      assert (t + [c])[1..] == t[1..] + [c];
      AccumulateSnoc(t[1..], c, 10 * acc + DigitValue(t[0]));
    }
  }

  /** Reading the digits of a number gives the number back. */
  lemma {:induction false} DigitsRead(n: nat)
    ensures AllDigits(Digits(n)) && Accumulate(Digits(n), 0) == n
  {
    if n >= 10 {
      DigitsRead(n / 10);
      AccumulateSnoc(Digits(n / 10), ('0' as int + n % 10) as char, 0);
    }
  }

  lemma StolIntText(n: int)
    requires LONG_MIN <= n <= LONG_MAX
    ensures Stol(IntText(n)) == Some(n)
    ensures forall k :: 0 <= k < |IntText(n)| ==> IsNumeral(IntText(n)[k]) && IntText(n)[k] != '.'
    ensures IsDigit(IntText(n)[0]) || IntText(n)[0] == '-'
  {
    if n < 0 {
      DigitsRead(-n);
      assert IntText(n)[1..] == Digits(-n);
    } else {
      DigitsRead(n);
    }
  }

  lemma {:induction false} NumeralRun(str: string, o: nat, t: string)
    requires Occurs(str, o, t)
    requires forall k :: 0 <= k < |t| ==> IsNumeral(t[k])
    requires !IsNumeral(At(str, o + |t|))
    ensures NumeralEnd(str, o) == o + |t|
    decreases |t|
  {
    if t != "" {
      OccursHead(str, o, t);
      NumeralRun(str, o + 1, t[1..]);
    }
  }

  lemma ParseInteger(str: string, o: nat, n: int)
    requires LONG_MIN <= n <= LONG_MAX
    requires Occurs(str, o, IntText(n)) && IsDelimiter(At(str, o + |IntText(n)|))
    ensures ParseNext(str, o) == Value(Integral(n), o + |IntText(n)|)
  {
    StolIntText(n);
    OccursHead(str, o, IntText(n));
    NumeralRun(str, o, IntText(n));
  }

  // ----- values -----

  lemma UnfoldItems(items: seq<JSON>, depth: nat, w: Layout)
    requires items != []
    ensures RenderItems(items, true, depth, w)
         == Render(items[0], depth + 1, w) + RenderItems(items[1..], false, depth, w)
    ensures RenderItems(items, false, depth, w) == Comma(w) + RenderItems(items, true, depth, w)
  {
    hide Render;
    assert forall t: string :: "" + t == t;
  }

  lemma UnfoldFields(fields: seq<Field>, depth: nat, w: Layout)
    requires fields != []
    ensures RenderFields(fields, true, depth, w)
         == RenderField(fields[0], depth, w) + RenderFields(fields[1..], false, depth, w)
    ensures RenderFields(fields, false, depth, w) == "," + RenderFields(fields, true, depth, w)
  {
    hide RenderField;
    assert forall t: string :: "" + t == t;
  }

  /** A printed value starts with a character that is neither white space nor a closing bracket. */
  lemma RenderHead(v: JSON, depth: nat, w: Layout)
    requires WellFormed(v) && Carried(v)
    ensures Render(v, depth, w) != ""
    ensures var c := Render(v, depth, w)[0]; !IsSpace(c) && c != ']' && c != '}'
  {
    match v
    case Integral(n) => StolIntText(n);
    case _ =>
  }

  /** Every printed value parses back to itself and the parser stops right behind its text. A number
      needs a delimiter behind it. */
  lemma {:induction false} ParseRender(str: string, o: nat, v: JSON, depth: nat, w: Layout)
    requires WellFormed(v) && Carried(v)
    requires Occurs(str, o, Render(v, depth, w))
    requires v.Integral? ==> IsDelimiter(At(str, o + |Render(v, depth, w)|))
    ensures ParseNext(str, o) == Value(v, o + |Render(v, depth, w)|)
    decreases v, 1
  {
    var t := Render(v, depth, w);
    RenderHead(v, depth, w);
    OccursHead(str, o, t);
    match v
    case Null =>
    case Boolean(b) =>
    case Integral(n) => ParseInteger(str, o, n);
    case String(s) => ParseQuoted(str, o, s);
    case Array(items) =>
      OccursSplit(str, o, "[", RenderItems(items, true, depth, w));
      ParseArrayRender(str, o, items, depth, w);
    case Object(fields) =>
      OccursSplit(str, o, "{", RenderFields(fields, true, depth, w));
      ParseObjectRender(str, o, fields, depth, w);
  }

  lemma {:induction false} ParseArrayRender(str: string, o: nat, items: seq<JSON>, depth: nat, w: Layout)
    requires o < |str| && WellFormedItems(items) && CarriedItems(items)
    requires Occurs(str, o + 1, RenderItems(items, true, depth, w))
    ensures ParseArray(str, o) == Value(Array(items), o + 1 + |RenderItems(items, true, depth, w)|)
    decreases items, 1
  {
    var t := RenderItems(items, true, depth, w);
    if items != [] {
      RenderHead(items[0], depth + 1, w);
      assert t[0] == Render(items[0], depth + 1, w)[0];
      OccursHead(str, o + 1, t);
      ParseItemsRender(str, o + 1, items, depth, w, []);
      assert [] + items == items;
    } else {
      OccursHead(str, o + 1, t);
    }
  }

  lemma PassComma(str: string, q: nat, more: string, w: Layout)
    requires Occurs(str, q, Comma(w) + more)
    ensures At(str, q) == ',' && SkipWs(str, q) == q
    ensures Occurs(str, q + |Comma(w)|, more)
    ensures SkipWs(str, q + 1) == SkipWs(str, q + |Comma(w)|)
  {
    hide Occurs;
    OccursSplit(str, q, Comma(w), more);
    OccursHead(str, q, Comma(w));
    if w == Spaced {
      OccursHead(str, q + 1, " ");
    }
  }

  /** The text of an item list: its first item, then the closing bracket or a comma and the rest. */
  lemma SplitItems(str: string, o: nat, items: seq<JSON>, depth: nat, w: Layout)
    requires items != [] && Occurs(str, o, RenderItems(items, true, depth, w))
    ensures Occurs(str, o, Render(items[0], depth + 1, w))
    ensures var q := o + |Render(items[0], depth + 1, w)|;
            && SkipWs(str, q) == q
            && At(str, q) == (if |items| == 1 then ']' else ',')
            && o + |RenderItems(items, true, depth, w)| == q + |RenderItems(items[1..], false, depth, w)|
            && (|items| > 1 ==>
                 && Occurs(str, q + |Comma(w)|, RenderItems(items[1..], true, depth, w))
                 && SkipWs(str, q + 1) == SkipWs(str, q + |Comma(w)|)
                 && |RenderItems(items[1..], false, depth, w)|
                    == |Comma(w)| + |RenderItems(items[1..], true, depth, w)|)
  {
    hide Occurs, Render, RenderItems;
    var t, tail := Render(items[0], depth + 1, w), RenderItems(items[1..], false, depth, w);
    UnfoldItems(items, depth, w);
    OccursSplit(str, o, t, tail);
    if |items| > 1 {
      UnfoldItems(items[1..], depth, w);
      PassComma(str, o + |t|, RenderItems(items[1..], true, depth, w), w);
    } else {
      OneBracket(depth, w);
      OccursHead(str, o + |t|, tail);
    }
  }

  lemma {:induction false} ParseItemsRender(str: string, o: nat, items: seq<JSON>, depth: nat, w: Layout,
                                            acc: seq<JSON>)
    requires items != [] && WellFormedItems(items) && CarriedItems(items)
    requires Occurs(str, o, RenderItems(items, true, depth, w))
    ensures ParseItems(str, o, acc) == Value(Array(acc + items), o + |RenderItems(items, true, depth, w)|)
    decreases items, 0
  {
    hide ParseNext, Occurs, Render, RenderItems, SkipWs;
    var v, rest := items[0], items[1..];
    var q := o + |Render(v, depth + 1, w)|;
    SplitItems(str, o, items, depth, w);
    ParseRender(str, o, v, depth + 1, w);
    assert ParseItems(str, o, acc) == AfterItem(str, q, acc + [v]);
    if rest == [] {
      assert acc + items == acc + [v];
      assert |RenderItems([], false, depth, w)| == 1 by { OneBracket(depth, w); }
    } else {
      ParseItemsRender(str, q + |Comma(w)|, rest, depth, w, acc + [v]);
      assert acc + [v] + rest == acc + items;
      ItemsSkip(str, q + 1, q + |Comma(w)|, acc + [v]);
    }
  }

  lemma OneBracket(depth: nat, w: Layout)
    ensures RenderItems([], false, depth, w) == "]"
  {
  }

  lemma {:induction false} ParseObjectRender(str: string, o: nat, fields: seq<Field>, depth: nat, w: Layout)
    requires o < |str| && WellFormedFields(fields) && CarriedFields(fields) && Sorted(fields)
    requires Occurs(str, o + 1, RenderFields(fields, true, depth, w))
    ensures ParseObject(str, o) == Value(Object(fields), o + 1 + |RenderFields(fields, true, depth, w)|)
    decreases fields, 1
  {
    hide ParseFields, ParseNext, Occurs, RenderFields, RenderField, SkipWs, Pad, ClosePad;
    if fields == [] {
      NoFields(depth, w);
      CloseBrace(str, o + 1, depth, w);
    } else {
      FieldHead(str, o + 1, fields, depth, w);
      ParseFieldsRender(str, o + 1, fields, depth, w, []);
      assert [] + fields == fields;
      SkipTwice(str, o + 1);
      FieldsSkip(str, SkipWs(str, o + 1), o + 1, []);
    }
  }

  lemma NoFields(depth: nat, w: Layout)
    ensures RenderFields([], true, depth, w) == ClosePad(depth, w) + "}"
    ensures RenderFields([], false, depth, w) == ClosePad(depth, w) + "}"
  {
  }

  lemma CloseBrace(str: string, o: nat, depth: nat, w: Layout)
    requires Occurs(str, o, ClosePad(depth, w) + "}")
    ensures SkipWs(str, o) == o + |ClosePad(depth, w)| && At(str, o + |ClosePad(depth, w)|) == '}'
    ensures IsDelimiter(At(str, o))
  {
    var pad := ClosePad(depth, w);
    OccursSplit(str, o, pad, "}");
    OccursHead(str, o + |pad|, "}");
    if depth > 0 {
      PadIsSpaces(depth - 1, w);
    }
    SkipSpaces(str, o, pad);
    if pad != "" {
      OccursHead(str, o, pad);
    }
  }

  /** The first field's padding is white space and its key's quote comes next. */
  lemma FieldHead(str: string, o: nat, fields: seq<Field>, depth: nat, w: Layout)
    requires fields != [] && Occurs(str, o, RenderFields(fields, true, depth, w))
    ensures SkipWs(str, o) == o + |Pad(depth, w)| && At(str, o + |Pad(depth, w)|) == '\"'
    ensures Occurs(str, o, RenderField(fields[0], depth, w))
    ensures Occurs(str, o + |RenderField(fields[0], depth, w)|, RenderFields(fields[1..], false, depth, w))
  {
    hide Occurs, Pad, Render, RenderFields, RenderField, Quoted, Colon, SkipWs, IsSpace;
    var f, tail := RenderField(fields[0], depth, w), RenderFields(fields[1..], false, depth, w);
    UnfoldFields(fields, depth, w);
    OccursSplit(str, o, f, tail);
    QuoteAfterPad(str, o, fields[0], depth, w);
    PadIsSpaces(depth, w);
    SkipSpaces(str, o, Pad(depth, w));
  }

  lemma QuoteAfterPad(str: string, o: nat, f: Field, depth: nat, w: Layout)
    requires Occurs(str, o, RenderField(f, depth, w))
    ensures Occurs(str, o, Pad(depth, w))
    ensures At(str, o + |Pad(depth, w)|) == '\"' && !IsSpace('\"')
  {
    hide Occurs, Pad, Render, Colon;
    var q := Quoted(f.key) + (Colon(w) + Render(f.value, depth + 1, w));
    OccursSplit(str, o, Pad(depth, w), q);
    OccursHead(str, o + |Pad(depth, w)|, q);
  }

  /** The parts of one printed field: padding, quoted key, colon and value. */
  lemma SplitField(str: string, o: nat, f: Field, depth: nat, w: Layout)
    requires WellFormed(f.value) && Carried(f.value)
    requires Occurs(str, o, RenderField(f, depth, w))
    ensures var a := o + |Pad(depth, w)|;
            var p := a + |Quoted(f.key)|;
            var q := p + |Colon(w)|;
            && Occurs(str, a, Quoted(f.key))
            && At(str, SkipWs(str, p)) == ':'
            && SkipWs(str, SkipWs(str, p) + 1) == q
            && Occurs(str, q, Render(f.value, depth + 1, w))
            && o + |RenderField(f, depth, w)| == q + |Render(f.value, depth + 1, w)|
  {
    hide Occurs, Render, SkipWs, Pad, Quoted, Colon;
    var a := o + |Pad(depth, w)|;
    var p := a + |Quoted(f.key)|;
    var c, v := Colon(w), Render(f.value, depth + 1, w);
    OccursSplit(str, o, Pad(depth, w), Quoted(f.key) + (c + v));
    OccursSplit(str, a, Quoted(f.key), c + v);
    RenderHead(f.value, depth + 1, w);
    PassColon(str, p, v, w);
  }

  lemma PassColon(str: string, p: nat, v: string, w: Layout)
    requires Occurs(str, p, Colon(w) + v) && v != "" && !IsSpace(v[0])
    ensures At(str, SkipWs(str, p)) == ':'
    ensures SkipWs(str, SkipWs(str, p) + 1) == p + |Colon(w)|
    ensures Occurs(str, p + |Colon(w)|, v)
  {
    hide Occurs;
    var c := Colon(w);
    OccursSplit(str, p, c, v);
    OccursHead(str, p + |c|, v);
    OccursHead(str, p, c);
    if w == Spaced {
      OccursHead(str, p + 1, c[1..]);
      OccursHead(str, p + 2, c[2..]);
    }
  }

  /** One printed field: its key parses to the string that escapes to the key, a colon follows, and
      its value parses to itself. */
  lemma {:induction false} ParseFieldRender(str: string, o: nat, f: Field, depth: nat, w: Layout)
      returns (u: string, p: nat)
    requires WellFormed(f.value) && Carried(f.value) && EscapedForm(f.key)
    requires Occurs(str, o, RenderField(f, depth, w))
    requires SkipWs(str, o) == o + |Pad(depth, w)|
    requires IsDelimiter(At(str, o + |RenderField(f, depth, w)|))
    ensures Escape(u) == f.key
    ensures ParseNext(str, o) == Value(String(u), p)
    ensures At(str, SkipWs(str, p)) == ':'
    ensures ParseNext(str, SkipWs(str, SkipWs(str, p) + 1)) == Value(f.value, o + |RenderField(f, depth, w)|)
    decreases f
  {
    hide ParseNext, Render, RenderField, Occurs, Quoted, Pad, Colon, SkipWs, At, IsDelimiter, WellFormed, Carried;
    u :| NulFree(u) && Escape(u) == f.key;
    var a := o + |Pad(depth, w)|;
    p := a + |Quoted(f.key)|;
    SplitField(str, o, f, depth, w);
    ParseQuoted(str, a, u);
    SkipTwice(str, o);
    NextSkips(str, o, a);
    ParseRender(str, p + |Colon(w)|, f.value, depth + 1, w);
  }

  /** What follows the first field: the closing brace or a comma and the rest. */
  lemma SplitFields(str: string, o: nat, fields: seq<Field>, depth: nat, w: Layout)
    requires fields != [] && Occurs(str, o, RenderFields(fields, true, depth, w))
    ensures var q := o + |RenderField(fields[0], depth, w)|;
            && IsDelimiter(At(str, q))
            && (|fields| == 1 ==>
                 && At(str, SkipWs(str, q)) == '}'
                 && SkipWs(str, q) + 1 == o + |RenderFields(fields, true, depth, w)|)
            && (|fields| > 1 ==>
                 && SkipWs(str, q) == q && At(str, q) == ','
                 && Occurs(str, q + 1, RenderFields(fields[1..], true, depth, w))
                 && o + |RenderFields(fields, true, depth, w)| == q + 1 + |RenderFields(fields[1..], true, depth, w)|)
  {
    hide Occurs, RenderField, RenderFields, Pad, ClosePad, SkipWs;
    var rest := fields[1..];
    var t, tail := RenderField(fields[0], depth, w), RenderFields(rest, false, depth, w);
    UnfoldFields(fields, depth, w);
    OccursSplit(str, o, t, tail);
    if rest == [] {
      NoFields(depth, w);
      CloseBrace(str, o + |t|, depth, w);
    } else {
      UnfoldFields(rest, depth, w);
      OccursSplit(str, o + |t|, ",", RenderFields(rest, true, depth, w));
      OccursHead(str, o + |t|, ",");
      SkipNothing(str, o + |t|);
    }
  }

  lemma {:induction false} ParseFieldsRender(str: string, o: nat, fields: seq<Field>, depth: nat, w: Layout,
                                             acc: seq<Field>)
    requires fields != [] && WellFormedFields(fields) && CarriedFields(fields)
    requires Sorted(fields) && forall i :: 0 <= i < |fields| ==> Below(acc, fields[i].key)
    requires Occurs(str, o, RenderFields(fields, true, depth, w))
    ensures ParseFields(str, o, acc) == Value(Object(acc + fields), o + |RenderFields(fields, true, depth, w)|)
    decreases fields, 0
  {
    hide ParseNext, Put, Occurs, RenderField, RenderFields, SkipWs, Escape;
    var f, rest := fields[0], fields[1..];
    FieldHead(str, o, fields, depth, w);
    SplitFields(str, o, fields, depth, w);
    PutAppends(acc, f.key, f.value);
    var q := o + |RenderField(f, depth, w)|;
    var u, p := ParseFieldRender(str, o, f, depth, w);
    assert ParseFields(str, o, acc) == AfterKey(str, p, f.key, acc) == AfterField(str, q, acc + [f]);
    assert acc + [f] + rest == acc + fields;
    if rest == [] {
      assert acc + [f] == acc + fields;
    } else {
      ParseFieldsRender(str, q + 1, rest, depth, w, acc + [f]);
    }
  }
}
