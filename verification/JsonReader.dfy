/** The parser as it runs: loops that move an offset through the text and build the value. */
module JsonReader {
  import opened JsonValue
  import opened Options
  import opened JsonParser

  method ConsumeWs(str: string, start: nat) returns (offset: nat)
    ensures offset == SkipWs(str, start)
  {
    offset := start;
    while IsSpace(At(str, offset))
      invariant offset >= start && SkipWs(str, offset) == SkipWs(str, start)
      decreases Left(str, offset)
    {
      offset := offset + 1;
    }
  }

  method ReadString(str: string, start: nat) returns (r: Parsed)
    ensures r == ParseString(str, start)
  {
    var offset, val := start + 1, "";
    var c := At(str, offset);
    while c != '\"' && c != NUL
      invariant 0 <= offset && c == At(str, offset)
      invariant Scan(str, offset, val) == ParseString(str, start)
      decreases Left(str, offset)
    {
      if c != '\\' {
        val := val + [c];
      } else {
        offset := offset + 1;
        if At(str, offset) != 'u' {
          val := val + [Unescape(At(str, offset))];
        } else {
          if !FourHex(str, offset + 1) {
            return Value(String(""), offset);
          }
          val := val + "\\u" + str[offset + 1..offset + 5];
          offset := offset + 4;
        }
      }
      offset := offset + 1;
      c := At(str, offset);
    }
    return Value(String(val), offset + 1);
  }

  method ReadNumber(str: string, start: nat) returns (r: Parsed)
    requires start <= |str|
    ensures r == ParseNumber(str, start)
  {
    hide Stol, StodAccepts, IsDelimiter, ParseExponent;
    var offset, val, isDouble := start, "", false;
    while IsNumeral(At(str, offset))
      invariant start <= offset <= |str| && val == str[start..offset]
      invariant NumeralEnd(str, offset) == NumeralEnd(str, start)
      invariant isDouble == ('.' in val)
      decreases Left(str, offset)
    {
      val := val + [At(str, offset)];
      isDouble := isDouble || At(str, offset) == '.';
      offset := offset + 1;
    }
    var c := At(str, offset);
    if c == 'E' || c == 'e' {
      r := ReadExponent(str, val, offset + 1);
      return;
    }
    if !IsDelimiter(c) {
      return Value(Null, offset + 1);
    }
    if isDouble {
      return if StodAccepts(val) then Value(Floating(val, 0), offset) else Exception;
    }
    var n := Stol(val);
    return if n.None? then Exception else Value(Integral(n.value), offset);
  }

  method ReadExponent(str: string, val: string, start: nat) returns (r: Parsed)
    requires start <= |str|
    ensures r == ParseExponent(str, val, start)
  {
    var offset, exp := start, "";
    if At(str, offset) == '-' {
      offset, exp := offset + 1, "-";
    }
    offset := offset + 1;
    ghost var from, sign := offset, exp;
    while IsDigit(At(str, offset))
      invariant from <= offset && (from <= |str| ==> offset <= |str|) && (from > |str| ==> offset == from)
      invariant exp == sign + (if from <= |str| then str[from..offset] else "")
      invariant DigitsEnd(str, offset) == DigitsEnd(str, from)
      decreases Left(str, offset)
    {
      exp := exp + [At(str, offset)];
      offset := offset + 1;
    }
    if !IsDelimiter(At(str, offset)) {
      return Value(Null, offset + 1);
    }
    if exp == "" {
      return Exception;
    }
    return Number(val, exp, offset);
  }

  method ReadNext(str: string, start: nat) returns (r: Parsed)
    ensures r == ParseNext(str, start)
    decreases Left(str, start), 1
  {
    var offset := ConsumeWs(str, start);
    var c := At(str, offset);
    if c == '[' {
      r := ReadArray(str, offset);
    } else if c == '{' {
      r := ReadObject(str, offset);
    } else if c == '\"' {
      r := ReadString(str, offset);
    } else if c == 't' || c == 'f' {
      r := ParseBool(str, offset);
    } else if c == 'n' {
      r := ParseNull(str, offset);
    } else if IsDigit(c) || c == '-' {
      r := ReadNumber(str, offset);
    } else {
      r := Value(Null, offset);
    }
  }

  method ReadArray(str: string, start: nat) returns (r: Parsed)
    requires start < |str|
    ensures r == ParseArray(str, start)
    decreases Left(str, start), 0
  {
    hide ParseNext, SkipWs;
    var offset := ConsumeWs(str, start + 1);
    if At(str, offset) == ']' {
      return Value(Array([]), offset + 1);
    }
    var items: seq<JSON> := [];
    while true
      invariant start < offset
      invariant ParseItems(str, offset, items) == ParseArray(str, start)
      decreases Left(str, offset)
    {
      var v := ReadNext(str, offset);
      if v.Exception? {
        return Exception;
      }
      items := items + [v.json];
      var i := ConsumeWs(str, v.offset);
      if At(str, i) == ',' {
        offset := i + 1;
      } else if At(str, i) == ']' {
        return Value(Array(items), i + 1);
      } else {
        return Value(Array([]), i);
      }
    }
  }

  method ReadObject(str: string, start: nat) returns (r: Parsed)
    requires start < |str|
    ensures r == ParseObject(str, start)
    decreases Left(str, start), 0
  {
    hide ParseNext, Put, KeyText, SkipWs;
    var offset := ConsumeWs(str, start + 1);
    if At(str, offset) == '}' {
      return Value(Object([]), offset + 1);
    }
    var fields: seq<Field> := [];
    while true
      invariant start < offset
      invariant ParseFields(str, offset, fields) == ParseObject(str, start)
      decreases Left(str, offset)
    {
      var k := ReadNext(str, offset);
      if k.Exception? {
        return Exception;
      }
      var i := ConsumeWs(str, k.offset);
      if At(str, i) != ':' {
        return Value(Object(fields), i);
      }
      i := ConsumeWs(str, i + 1);
      var v := ReadNext(str, i);
      if v.Exception? {
        return Exception;
      }
      assert ParseFields(str, offset, fields) == AfterKey(str, k.offset, KeyText(k.json), fields);
      fields := Put(fields, KeyText(k.json), v.json);
      assert AfterField(str, v.offset, fields) == ParseObject(str, start);
      var j := ConsumeWs(str, v.offset);
      if At(str, j) == ',' {
        offset := j + 1;
      } else if At(str, j) == '}' {
        return Value(Object(fields), j + 1);
      } else {
        return Value(Object(fields), j);
      }
    }
  }
}
