/** The per-field value rule of the browser client's result cards (`renderCard`, app.js:50-69):
    which value each `data-field` slot of a card template shows for one record. */
module CardDisplay {
  import opened Common
  import opened JsValues
  import FormUrlEncoded

  /** The placeholder the rule is meant to show for a missing value: one em dash. */
  const Placeholder: string := "\U{2014}"

  /** The placeholder as the source text holds it: the UTF-8 bytes of an em dash read back as
      Windows-1252 and saved again, which shows as three characters. */
  const PlaceholderAsWritten: string := "\U{00E2}\U{20AC}\U{201D}"

  /** The value a field slot shows, given the placeholder for missing values: `estimated` and
      `canceled` become fixed labels chosen by truthiness, and undefined, null and the empty
      string become the placeholder. */
  function DisplayWith(placeholder: string, key: string, raw: JsValue): (shown: JsValue)
    ensures key == "estimated" ==> shown == Str(if Truthy(raw) then "Real-time update" else "Scheduled only")
    ensures key == "canceled" ==> shown == Str(if Truthy(raw) then "Canceled" else "On schedule")
  {
    var labelled :=
      if key == "estimated" then Str(if Truthy(raw) then "Real-time update" else "Scheduled only")
      else if key == "canceled" then Str(if Truthy(raw) then "Canceled" else "On schedule")
      else raw;
    if labelled == Undefined || labelled == Null || labelled == Str("") then Str(placeholder)
    else labelled
  }

  /** The rule as app.js:56-65 is written, with the mis-encoded placeholder. */
  function DisplayValueAsWritten(key: string, raw: JsValue): (shown: JsValue)
    ensures (key != "estimated" && key != "canceled" && (raw == Undefined || raw == Null || raw == Str(""))) ==>
              shown == Str(PlaceholderAsWritten)
  {
    DisplayWith(PlaceholderAsWritten, key, raw)
  }

  /** The rule with the em dash the source evidently intends; the rest of the model uses it. */
  function DisplayValue(key: string, raw: JsValue): (shown: JsValue)
    ensures (key != "estimated" && key != "canceled" && (raw == Undefined || raw == Null || raw == Str(""))) ==>
              shown == Str(Placeholder)
  {
    DisplayWith(Placeholder, key, raw)
  }

  /** The whole rule: the two labelled fields never show the placeholder, every other field
      shows the placeholder exactly when its value is undefined, null or "", and otherwise
      shows its value unchanged. */
  lemma DisplayValueRule(key: string, raw: JsValue)
    ensures key == "estimated" || key == "canceled" ==> DisplayValue(key, raw) != Str(Placeholder)
    ensures key != "estimated" && key != "canceled" ==>
              (DisplayValue(key, raw) == Str(Placeholder) <==>
                 raw == Undefined || raw == Null || raw == Str("") || raw == Str(Placeholder))
    ensures (key != "estimated" && key != "canceled" && raw != Undefined && raw != Null && raw != Str("")) ==>
              DisplayValue(key, raw) == raw
  {
  }

  /** No slot is ever left blank: the shown value is never undefined, null or "". */
  lemma DisplayNeverBlank(key: string, raw: JsValue)
    ensures DisplayValue(key, raw) != Undefined && DisplayValue(key, raw) != Null
    ensures DisplayValue(key, raw) != Str("")
  {
  }

  /** The values of one card, slot by slot, for a record that is not null or undefined
      (reading a field of null or undefined throws). A template without slots reads nothing. */
  function CardValues(data: JsValue, fields: seq<string>): (card: seq<JsValue>)
    requires fields == [] || !Nullish(data)
    ensures |card| == |fields|
    ensures forall i :: 0 <= i < |fields| ==> card[i] == DisplayValue(fields[i], Prop(data, fields[i]))
  {
    if fields == [] then []
    else [DisplayValue(fields[0], Prop(data, fields[0]))] + CardValues(data, fields[1..])
  }

  /** An empty record fills every slot with the placeholder, except the two labelled fields,
      which read as not real-time and not canceled. */
  lemma EmptyRecordCard(fields: seq<string>, i: nat)
    requires i < |fields|
    ensures CardValues(Obj(map[]), fields)[i] ==
              if fields[i] == "estimated" then Str("Scheduled only")
              else if fields[i] == "canceled" then Str("On schedule")
              else Str(Placeholder)
  {
  }

  /** Windows-1252 decoding of one byte; `None` for the five bytes the code page leaves
      undefined. */
  function Cp1252(b: FormUrlEncoded.byte): Option<char> {
    if b < 0x80 || b >= 0xA0 then Some(b as int as char)
    else
      var table := [
        '\U{20AC}', ' ', '\U{201A}', '\U{0192}', '\U{201E}', '\U{2026}', '\U{2020}', '\U{2021}',
        '\U{02C6}', '\U{2030}', '\U{0160}', '\U{2039}', '\U{0152}', ' ', '\U{017D}', ' ',
        ' ', '\U{2018}', '\U{2019}', '\U{201C}', '\U{201D}', '\U{2022}', '\U{2013}', '\U{2014}',
        '\U{02DC}', '\U{2122}', '\U{0161}', '\U{203A}', '\U{0153}', ' ', '\U{017E}', '\U{0178}'];
      if b == 0x81 || b == 0x8D || b == 0x8F || b == 0x90 || b == 0x9D then None
      else Some(table[b as int - 0x80])
  }

  function Cp1252Decode(bs: seq<FormUrlEncoded.byte>): Option<string> {
    if bs == [] then Some([])
    else match (Cp1252(bs[0]), Cp1252Decode(bs[1..]))
      case (Some(c), Some(rest)) => Some([c] + rest)
      case _ => None
  }

  /** The placeholder in the source is the em dash's UTF-8 bytes decoded as Windows-1252, so a
      missing value shows as three characters instead of a dash. */
  lemma PlaceholderMojibake()
    ensures FormUrlEncoded.Utf8Bytes(Placeholder) == [0xE2, 0x80, 0x94]
    ensures Cp1252Decode(FormUrlEncoded.Utf8Bytes(Placeholder)) == Some(PlaceholderAsWritten)
    ensures DisplayValueAsWritten("headsign", Null) == Str(PlaceholderAsWritten)
    ensures DisplayValueAsWritten("headsign", Null) != DisplayValue("headsign", Null)
    ensures |Placeholder| == 1 && |PlaceholderAsWritten| == 3
  {
    var bs := FormUrlEncoded.Utf8Bytes(Placeholder);
    assert FormUrlEncoded.Utf8(Placeholder[0]) == [0xE2, 0x80, 0x94];
    assert bs == FormUrlEncoded.Utf8(Placeholder[0]) + FormUrlEncoded.Utf8Bytes([]);
    assert bs[1..] == [0x80, 0x94] && bs[1..][1..] == [0x94];
    assert Cp1252(0x94) == Some('\U{201D}') && Cp1252(0x80) == Some('\U{20AC}');
    var last: seq<FormUrlEncoded.byte> := [0x94];
    assert last[1..] == [] && last[0] == 0x94;
    assert Cp1252Decode(last[1..]) == Some([]);
    var dash: string := ['\U{201D}'];
    assert dash + [] == dash;
    assert Cp1252Decode(last) == Some(dash);
    var tail: seq<FormUrlEncoded.byte> := [0x80, 0x94];
    assert tail[1..] == last && tail[0] == 0x80;
    assert ['\U{20AC}'] + dash == ['\U{20AC}', '\U{201D}'];
    assert Cp1252Decode(tail) == Some(['\U{20AC}', '\U{201D}']);
    assert bs[1..] == tail && bs[0] == 0xE2;
    assert Cp1252(0xE2) == Some('\U{00E2}');
    assert ['\U{00E2}'] + ['\U{20AC}', '\U{201D}'] == PlaceholderAsWritten;
  }
}
