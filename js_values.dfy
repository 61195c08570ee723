/** The slice of JavaScript value semantics that the browser client relies on: values parsed
    from JSON (plus `undefined`), truthiness, the `??` test, property reads, and
    `String.prototype.trim`. */
module JsValues {

  /** A JavaScript value as produced by `response.json()`, plus `undefined` for missing
      properties. Numbers are kept as reals: JSON never yields NaN, and a number too large for a
      double (which `JSON.parse` turns into Infinity) is not represented. */
  datatype JsValue =
    | Undefined
    | Null
    | Bool(b: bool)
    | Num(n: real)
    | Str(s: string)
    | Arr(items: seq<JsValue>)
    | Obj(fields: map<string, JsValue>)

  /** JavaScript truthiness: false, 0, "", null and undefined are falsy. */
  predicate Truthy(v: JsValue) {
    match v
    case Undefined => false
    case Null => false
    case Bool(b) => b
    case Num(n) => n != 0.0
    case Str(s) => s != ""
    case Arr(_) => true
    case Obj(_) => true
  }

  /** The values on which `??` takes its right operand, and on which reading a property throws. */
  predicate Nullish(v: JsValue) {
    v == Undefined || v == Null
  }

  /** `v[key]` on a value that is not null or undefined: an object's own field, the `length`
      and the indexed elements of a string or array, and `undefined` for everything else. */
  function Prop(v: JsValue, key: string): (r: JsValue)
    requires !Nullish(v)
    ensures v.Obj? ==> r == if key in v.fields then v.fields[key] else Undefined
    ensures v.Arr? && key == "length" ==> r == Num(|v.items| as real)
    ensures v.Str? && key == "length" ==> r == Num(|v.s| as real)
    ensures forall i: nat {:trigger NatToString(i)} :: key == NatToString(i) ==>
              (v.Arr? ==> r == if i < |v.items| then v.items[i] else Undefined)
              && (v.Str? ==> r == if i < |v.s| then Str([v.s[i]]) else Undefined)
    ensures (v.Bool? || v.Num?) ==> r == Undefined
  {
    IndexKeyIff(key);
    NumeralValue(key);
    match v
    case Obj(fields) => if key in fields then fields[key] else Undefined
    case Arr(items) =>
      if key == "length" then Num(|items| as real)
      else if IsIndexKey(key) && DigitsValue(key) < |items| then items[DigitsValue(key)]
      else Undefined
    case Str(s) =>
      if key == "length" then Num(|s| as real)
      else if IsIndexKey(key) && DigitsValue(key) < |s| then Str([s[DigitsValue(key)]])
      else Undefined
    case _ => Undefined
  }

  predicate IsDigit(c: char) {
    '0' <= c <= '9'
  }

  /** The decimal numeral of a natural number, as `String(n)` and template literals write it. */
  function NatToString(n: nat): (s: string)
    ensures s != [] && forall i :: 0 <= i < |s| ==> IsDigit(s[i])
    ensures s[0] == '0' ==> s == "0"
  {
    if n < 10 then ["0123456789"[n]] else NatToString(n / 10) + ["0123456789"[n % 10]]
  }

  /** The value of a string of decimal digits. */
  function DigitsValue(s: string): nat
    requires forall i :: 0 <= i < |s| ==> IsDigit(s[i])
  {
    if s == [] then 0
    else
      assert IsDigit(s[|s| - 1]);
      DigitsValue(s[..|s| - 1]) * 10 + (s[|s| - 1] as int - '0' as int)
  }

  /** A canonical numeral: digits without a leading zero, or "0" itself. Only such property
      names address the elements of an array or string. */
  predicate IsIndexKey(key: string) {
    && key != []
    && (forall i :: 0 <= i < |key| ==> IsDigit(key[i]))
    && (key[0] == '0' ==> key == "0")
  }

  lemma {:induction false} NatToStringValue(n: nat)
    ensures DigitsValue(NatToString(n)) == n
  {
    if n >= 10 {
      var s := NatToString(n);
      NatToStringValue(n / 10);
      assert s[..|s| - 1] == NatToString(n / 10);
    }
  }

  lemma DigitOf(c: char)
    requires IsDigit(c)
    ensures 0 <= c as int - '0' as int < 10 && "0123456789"[c as int - '0' as int] == c
  {
  }

  lemma AppendDigit(a: nat, d: nat)
    requires d < 10
    ensures (a * 10 + d) / 10 == a && (a * 10 + d) % 10 == d
  {
  }

  /** The numeral of a number of at least two digits is the numeral of its tens followed by
      its last digit. */
  lemma NatToStringSnoc(a: nat, d: nat)
    requires a > 0 && d < 10
    ensures NatToString(a * 10 + d) == NatToString(a) + ["0123456789"[d]]
  {
    AppendDigit(a, d);
  }

  lemma {:induction false} IndexKeyCanonical(key: string)
    requires IsIndexKey(key)
    ensures NatToString(DigitsValue(key)) == key
    decreases |key|
  {
    if |key| > 1 {
      var init := key[..|key| - 1];
      var last := key[|key| - 1];
      assert init[0] == key[0];
      IndexKeyCanonical(init);
      var a := DigitsValue(init);
      assert a > 0 by {
        if a == 0 {
          NatToStringZero(init);
        }
      }
      DigitOf(last);
      var d := last as int - '0' as int;
      assert DigitsValue(key) == a * 10 + d;
      NatToStringSnoc(a, d);
      assert key == init + [last];
    }
  }

  lemma NumeralValue(key: string)
    ensures forall n: nat {:trigger NatToString(n)} :: key == NatToString(n) ==>
              IsIndexKey(key) && DigitsValue(key) == n
  {
    forall n: nat | key == NatToString(n) ensures IsIndexKey(key) && DigitsValue(key) == n {
      NatToStringValue(n);
    }
  }

  lemma NatToStringZero(key: string)
    requires IsIndexKey(key) && NatToString(DigitsValue(key)) == key && DigitsValue(key) == 0
    ensures key == "0"
  {
  }

  /** The property names that address elements are exactly the numerals of natural numbers. */
  lemma IndexKeyIff(key: string)
    ensures IsIndexKey(key) <==> exists n: nat :: key == NatToString(n)
    ensures IsIndexKey(key) ==> key == NatToString(DigitsValue(key))
  {
    if IsIndexKey(key) {
      IndexKeyCanonical(key);
    }
    if exists n: nat :: key == NatToString(n) {
      var n: nat :| key == NatToString(n);
      NatToStringValue(n);
    }
  }

  /** `a ?? b`. */
  function Coalesce(a: JsValue, b: JsValue): (r: JsValue)
    ensures Nullish(a) ==> r == b
    ensures !Nullish(a) ==> r == a
  {
    if Nullish(a) then b else a
  }

  /** The characters `String.prototype.trim` removes: WhiteSpace and LineTerminator of
      sections 12.2 and 12.3 of ECMA-262. */
  predicate IsJsSpace(c: char) {
    || c == '\t' || c == '\n' || c == '\U{000B}' || c == '\U{000C}' || c == '\r' || c == ' '
    || c == '\U{00A0}' || c == '\U{1680}' || ('\U{2000}' <= c <= '\U{200A}')
    || c == '\U{2028}' || c == '\U{2029}' || c == '\U{202F}' || c == '\U{205F}'
    || c == '\U{3000}' || c == '\U{FEFF}'
  }

  function TrimStart(s: string): (r: string)
    ensures |r| <= |s| && r == s[|s| - |r|..]
    ensures r == [] || !IsJsSpace(r[0])
    ensures forall i :: 0 <= i < |s| - |r| ==> IsJsSpace(s[i])
  {
    if s != [] && IsJsSpace(s[0]) then TrimStart(s[1..]) else s
  }

  function TrimEnd(s: string): (r: string)
    ensures |r| <= |s| && r == s[..|r|]
    ensures r == [] || !IsJsSpace(r[|r| - 1])
    ensures forall i :: |r| <= i < |s| ==> IsJsSpace(s[i])
  {
    if s != [] && IsJsSpace(s[|s| - 1]) then TrimEnd(s[..|s| - 1]) else s
  }

  /** The number of white-space characters `trim` removes from the front. */
  function LeadingSpaces(s: string): (n: nat)
    ensures n <= |s|
  {
    |s| - |TrimStart(s)|
  }

  /** `s.trim()`: the longest slice of `s` that neither starts nor ends with white space. */
  function Trim(s: string): (r: string)
    ensures r <= s[LeadingSpaces(s)..]
    ensures forall k :: 0 <= k < LeadingSpaces(s) ==> IsJsSpace(s[k])
    ensures forall k :: LeadingSpaces(s) + |r| <= k < |s| ==> IsJsSpace(s[k])
    ensures r == [] || (!IsJsSpace(r[0]) && !IsJsSpace(r[|r| - 1]))
  {
    TrimSlice(s);
    TrimEnd(TrimStart(s))
  }

  lemma TrimSlice(s: string)
    ensures TrimEnd(TrimStart(s)) <= s[LeadingSpaces(s)..]
    ensures forall k :: LeadingSpaces(s) + |TrimEnd(TrimStart(s))| <= k < |s| ==> IsJsSpace(s[k])
    ensures TrimEnd(TrimStart(s)) == [] || !IsJsSpace(TrimEnd(TrimStart(s))[0])
  {
    var t := TrimStart(s);
    var r := TrimEnd(t);
    var i := LeadingSpaces(s);
    assert t == s[i..];
    forall k | i + |r| <= k < |s| ensures IsJsSpace(s[k]) {
      assert s[k] == t[k - i];
    }
    if r != [] {
      assert r[0] == t[0];
    }
  }

  /** A trimmed string is empty exactly when the input is made of white space only. */
  lemma TrimEmptyIff(s: string)
    ensures Trim(s) == [] <==> forall k :: 0 <= k < |s| ==> IsJsSpace(s[k])
  {
    if forall k :: 0 <= k < |s| ==> IsJsSpace(s[k]) {
      AllSpaceTrimsToEmpty(s);
    }
  }

  lemma {:induction false} AllSpaceTrimsToEmpty(s: string)
    requires forall k :: 0 <= k < |s| ==> IsJsSpace(s[k])
    ensures TrimStart(s) == []
  {
    if s != [] {
      AllSpaceTrimsToEmpty(s[1..]);
    }
  }
}
