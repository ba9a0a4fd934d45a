/** The protection info of a channel as the JSON text that is handed out without white space. */
module ProtectionExport {
  import opened Bytes
  import opened JsonValue
  import opened JsonPrinter
  import opened JsonExact

  datatype ProtectionConfig = ProtectionConfig(
    channel: string, ecm: seq<byte>, pat: seq<byte>, pmt: seq<byte>, clear: bool)

  function HexDigit(n: nat): char
    requires n < 16
  {
    if n < 10 then ('0' as int + n) as char else ('A' as int + n - 10) as char
  }

  function Hex(bytes: seq<byte>): string {
    if bytes == [] then "" else [HexDigit(bytes[0] / 16), HexDigit(bytes[0] % 16)] + Hex(bytes[1..])
  }

  function HexDigitValue(c: char): (v: nat)
    ensures v < 16
  {
    if '0' <= c <= '9' then c as int - '0' as int
    else if 'A' <= c <= 'F' then c as int - 'A' as int + 10
    else 0
  }

  function Unhex(t: string): seq<byte> {
    if |t| < 2 then [] else [16 * HexDigitValue(t[0]) + HexDigitValue(t[1])] + Unhex(t[2..])
  }

  /** A table's bytes can be read back from its hexadecimal text, which holds nothing that JSON would
      escape or white space that would be erased. */
  lemma {:induction false} HexReadsBack(bytes: seq<byte>)
    ensures Unhex(Hex(bytes)) == bytes
    ensures NulFree(Hex(bytes)) && Blankless(Hex(bytes))
  {
    hide HexDigit, HexDigitValue;
    if bytes != [] {
      HexReadsBack(bytes[1..]);
      HexDigitReadsBack(bytes[0] / 16);
      HexDigitReadsBack(bytes[0] % 16);
      assert Hex(bytes)[2..] == Hex(bytes[1..]);
    }
  }

  lemma HexDigitReadsBack(n: nat)
    requires n < 16
    ensures HexDigitValue(HexDigit(n)) == n
    ensures HexDigit(n) != NUL && HexDigit(n) != ' ' && HexDigit(n) != VT
  {
  }

  /** The object the export writes, its keys in the order of std::map. */
  function ExportValue(c: ProtectionConfig): JSON {
    Object([Field("channel", String(c.channel)), Field("clear", Boolean(c.clear)), Field("ecm", String(Hex(c.ecm))),
            Field("pat", String(Hex(c.pat))), Field("pmt", String(Hex(c.pmt)))])
  }

  method EraseWhiteSpace(text: string) returns (kept: string)
    ensures kept == Strip(text)
  {
    kept := "";
    for i := 0 to |text|
      invariant kept + Strip(text[i..]) == Strip(text)
    {
      assert text[i..][0] == text[i] && text[i..][1..] == text[i + 1..];
      if !IsSpace(text[i]) {
        kept := kept + [text[i]];
      }
    }
  }

  lemma KeysAreEscaped()
    ensures EscapedForm("channel") && EscapedForm("clear")
    ensures EscapedForm("ecm") && EscapedForm("pat") && EscapedForm("pmt")
    ensures Blankless("channel") && Blankless("clear") && Blankless("ecm") && Blankless("pat") && Blankless("pmt")
  {
    hide Escape, EscapedForm;
    PlainIsEscaped("channel");
    PlainIsEscaped("clear");
    PlainIsEscaped("ecm");
    PlainIsEscaped("pat");
    PlainIsEscaped("pmt");
  }

  lemma {:induction false} PlainIsEscaped(s: string)
    requires forall k :: 0 <= k < |s| ==> 'a' <= s[k] <= 'z'
    ensures Escape(s) == s && NulFree(s) && EscapedForm(s)
  {
    if s != "" {
      PlainIsEscaped(s[1..]);
    }
  }

  lemma ExportIsWellFormed(c: ProtectionConfig)
    ensures WellFormed(ExportValue(c))
    ensures Carried(ExportValue(c)) <==> NulFree(c.channel)
    ensures BlanklessValue(ExportValue(c)) <==> Blankless(c.channel)
  {
    hide Escape, EscapedForm, Less, Hex, Blankless, NulFree, WellFormedFields, CarriedFields, BlanklessFields;
    var f := ExportValue(c).fields;
    KeysAreEscaped();
    KeysAreOrdered();
    HexReadsBack(c.ecm);
    HexReadsBack(c.pat);
    HexReadsBack(c.pmt);
    FiveFields(f);
    assert f[0].value == String(c.channel);
  }

  lemma FiveFields(f: seq<Field>)
    requires |f| == 5
    ensures WellFormedFields(f) <==> forall i :: 0 <= i < 5 ==> WellFormed(f[i].value)
    ensures CarriedFields(f) <==> forall i :: 0 <= i < 5 ==> EscapedForm(f[i].key) && Carried(f[i].value)
    ensures BlanklessFields(f) <==> forall i :: 0 <= i < 5 ==> Blankless(f[i].key) && BlanklessValue(f[i].value)
  {
    hide Carried, WellFormed, BlanklessValue, Blankless, EscapedForm;
    EachField(f);
    EachField(f[1..]);
    EachField(f[2..]);
    EachField(f[3..]);
    EachField(f[4..]);
    assert f[1..][1..] == f[2..] && f[2..][1..] == f[3..] && f[3..][1..] == f[4..] && f[4..][1..] == [];
  }

  lemma EachField(f: seq<Field>)
    requires f != []
    ensures WellFormedFields(f) <==> WellFormed(f[0].value) && WellFormedFields(f[1..])
    ensures CarriedFields(f) <==> EscapedForm(f[0].key) && Carried(f[0].value) && CarriedFields(f[1..])
    ensures BlanklessFields(f) <==> Blankless(f[0].key) && BlanklessValue(f[0].value) && BlanklessFields(f[1..])
  {
  }

  /** Assigning the five keys in the order of the source gives the object in key order. */
  lemma FilledKeyByKey(c: ProtectionConfig)
    ensures var f1 := Put([], "channel", String(c.channel));
            var f2 := Put(f1, "ecm", String(Hex(c.ecm)));
            var f3 := Put(f2, "pat", String(Hex(c.pat)));
            var f4 := Put(f3, "pmt", String(Hex(c.pmt)));
            Put(f4, "clear", Boolean(c.clear)) == ExportValue(c).fields
  {
    hide Hex, Less;
    var channel, clear := String(c.channel), Boolean(c.clear);
    var ecm, pat, pmt := String(Hex(c.ecm)), String(Hex(c.pat)), String(Hex(c.pmt));
    var f1 := [Field("channel", channel)];
    var f2 := f1 + [Field("ecm", ecm)];
    var f3 := f2 + [Field("pat", pat)];
    var f4 := f3 + [Field("pmt", pmt)];
    KeysAreOrdered();
    PutAppends([], "channel", channel);
    PutAppends(f1, "ecm", ecm);
    PutAppends(f2, "pat", pat);
    PutAppends(f3, "pmt", pmt);
    assert f4[1..] == [Field("ecm", ecm), Field("pat", pat), Field("pmt", pmt)];
    assert Put(f4[1..], "clear", clear) == [Field("clear", clear)] + f4[1..];
  }

  lemma KeysAreOrdered()
    ensures Less("channel", "clear") && Less("channel", "ecm") && Less("channel", "pat") && Less("channel", "pmt")
    ensures Less("clear", "ecm") && Less("clear", "pat") && Less("clear", "pmt")
    ensures Less("ecm", "pat") && Less("ecm", "pmt") && Less("pat", "pmt")
    ensures !Less("clear", "channel")
  {
    assert "channel"[1..] == "hannel" && "clear"[1..] == "lear";
    assert "pat"[1..] == "at" && "pmt"[1..] == "mt";
    LessIsStrict("channel", "clear", "ecm");
    LessIsStrict("channel", "ecm", "pat");
    LessIsStrict("channel", "pat", "pmt");
    LessIsStrict("clear", "ecm", "pat");
    LessIsStrict("clear", "pat", "pmt");
    LessIsStrict("ecm", "pat", "pmt");
  }

  /** getJsonAsString: fill the object key by key, print it, erase the white space. The text reads back
      as that object exactly when the channel name holds no NUL, blank or vertical tab. */
  method GetJsonAsString(c: ProtectionConfig) returns (text: string)
    ensures text == Strip(Render(ExportValue(c), 1, Spaced))
    ensures LoadsAs(text, ExportValue(c)) <==> NulFree(c.channel) && Blankless(c.channel)
  {
    hide Put, Render, Strip, WellFormed, Carried, BlanklessValue, Hex, LoadsAs, Blankless;
    var fields := Put([], "channel", String(c.channel));
    fields := Put(fields, "ecm", String(Hex(c.ecm)));
    fields := Put(fields, "pat", String(Hex(c.pat)));
    fields := Put(fields, "pmt", String(Hex(c.pmt)));
    fields := Put(fields, "clear", Boolean(c.clear));
    FilledKeyByKey(c);
    ExportIsWellFormed(c);
    var printed := Dump(Object(fields), 1);
    text := EraseWhiteSpace(printed);
    StrippedRoundTripExactly(ExportValue(c), 1);
  }
}
