/** The JavaScript values the scanner reads out of a parsed package.json:
    JSON values, JavaScript truthiness, property reads, the string a template
    literal makes of a value, and String.prototype.trim. */
module JsValues {

  /** An optional value. */
  datatype Option<T> = None | Some(value: T)

  /** A value as JSON.parse returns it. Numbers are integers in this model. */
  datatype Json =
    | JNull
    | JBool(b: bool)
    | JNumber(n: int)
    | JString(s: string)
    | JArray(items: seq<Json>)
    | JObject(fields: map<string, Json>)

  /** JavaScript truthiness of a JSON value (objects and arrays, even empty ones, are truthy). */
  predicate Truthy(v: Json) {
    match v
    case JNull => false
    case JBool(b) => b
    case JNumber(n) => n != 0
    case JString(s) => s != ""
    case JArray(_) => true
    case JObject(_) => true
  }

  /** Truthiness of a possibly-undefined value (None is `undefined`, which is falsy). */
  predicate IsTruthy(u: Option<Json>) {
    u.Some? && Truthy(u.value)
  }

  /** Among values a property read can yield, exactly `undefined`, null, false,
      0 and the empty string are falsy. */
  lemma FalsyValues(u: Option<Json>)
    ensures !IsTruthy(u) <==>
      u == None || u == Some(JNull) || u == Some(JBool(false)) || u == Some(JNumber(0)) || u == Some(JString(""))
  {
  }

  /** The property read `v.key`, for a key that Object.prototype does not define:
      only an object's own field is found; every other value yields undefined.
      (Reading a property of null throws; callers handle that case themselves.) */
  function Prop(v: Json, key: string): Option<Json> {
    if v.JObject? && key in v.fields then Some(v.fields[key]) else None
  }

  /** The value of a decimal digit. */
  function DigitValue(c: char): int {
    c as int - '0' as int
  }

  /** The number a string of decimal digits denotes. */
  function DecimalValue(r: string): int {
    if r == [] then 0 else 10 * DecimalValue(r[..|r| - 1]) + DigitValue(r[|r| - 1])
  }

  /** The decimal numeral of a natural number: digits only, no leading zero,
      denoting `n`. */
  function NatToDecimal(n: nat): (r: string)
    ensures |r| > 0 && (|r| == 1 || r[0] != '0')
    ensures forall i :: 0 <= i < |r| ==> '0' <= r[i] <= '9'
    ensures DecimalValue(r) == n
  {
    var d := ('0' as int + n % 10) as char;
    if n < 10 then
      assert [d][..0] == [];
      [d]
    else
      var front := NatToDecimal(n / 10);
      var r := front + [d];
      assert r[..|r| - 1] == front;
      assert |front| == 1 ==> front[..0] == [];
      r
  }

  /** A value whose conversion to a string throws a TypeError: an object with an
      own `toString` property (no JSON value is callable, and `valueOf` yields the
      object itself, so no primitive is found), or an array holding such a value
      at any depth (`join` converts every non-null element). */
  predicate Unprintable(v: Json) {
    match v
    case JObject(fields) => "toString" in fields
    case JArray(items) => exists i :: 0 <= i < |items| && Unprintable(items[i])
    case _ => false
  }

  /** The string a template literal `${v}` makes of a JSON value; None when the
      conversion throws. */
  function Display(v: Json): (r: Option<string>)
    ensures r.None? <==> Unprintable(v)
    decreases v, 1, 0
  {
    match v
    case JNull => Some("null")
    case JBool(b) => Some(if b then "true" else "false")
    case JNumber(n) => Some(if n < 0 then "-" + NatToDecimal(-n) else NatToDecimal(n))
    case JString(s) => Some(s)
    case JArray(items) => JoinFrom(v, 0)
    case JObject(fields) => if "toString" in fields then None else Some("[object Object]")
  }

  /** Array.prototype.join(",") over the elements of array `v` from index `i` on;
      a null element contributes the empty string. None when an element's
      conversion throws. */
  function JoinFrom(v: Json, i: nat): (r: Option<string>)
    requires v.JArray?
    ensures r.None? <==> exists k :: i <= k < |v.items| && Unprintable(v.items[k])
    decreases v, 0, |v.items| - i
  {
    if i >= |v.items| then Some("")
    else
      var head := if v.items[i].JNull? then Some("") else Display(v.items[i]);
      var tail := JoinFrom(v, i + 1);
      if head.None? || tail.None? then None
      else Some((if i > 0 then "," else "") + head.value + tail.value)
  }

  /** The characters String.prototype.trim removes: WhiteSpace and LineTerminator. */
  predicate IsJsWhitespace(c: char) {
    var k := c as int;
    k == 0x09 || k == 0x0A || k == 0x0B || k == 0x0C || k == 0x0D || k == 0x20
    || k == 0xA0 || k == 0x1680 || (0x2000 <= k <= 0x200A) || k == 0x2028 || k == 0x2029
    || k == 0x202F || k == 0x205F || k == 0x3000 || k == 0xFEFF
  }

  predicate AllWhitespace(s: string) {
    forall i :: 0 <= i < |s| ==> IsJsWhitespace(s[i])
  }

  /** `s` with its trailing whitespace removed. */
  function TrimEnd(s: string): (r: string)
    ensures |r| <= |s| && r == s[..|r|]
    ensures AllWhitespace(s[|r|..])
    ensures r == [] || !IsJsWhitespace(r[|r| - 1])
    decreases |s|
  {
    if s != [] && IsJsWhitespace(s[|s| - 1]) then
      var init := s[..|s| - 1];
      var r := TrimEnd(init);
      assert forall k :: |r| <= k < |s| ==> s[k] == if k < |init| then init[|r|..][k - |r|] else s[|s| - 1];
      r
    else s
  }

  /** `s` with its leading whitespace removed. */
  function TrimStart(s: string): (r: string)
    ensures |r| <= |s| && r == s[|s| - |r|..]
    ensures AllWhitespace(s[..|s| - |r|])
    ensures r == [] || !IsJsWhitespace(r[0])
    decreases |s|
  {
    if s != [] && IsJsWhitespace(s[0]) then TrimStart(s[1..]) else s
  }

  /** String.prototype.trim. */
  function Trim(s: string): string {
    TrimEnd(TrimStart(s))
  }

  /** Trim yields the part of `s` between its leading and its trailing
      whitespace, which neither starts nor ends with whitespace. */
  lemma TrimCharacterisation(s: string)
    ensures var r := Trim(s);
      r == [] || (!IsJsWhitespace(r[0]) && !IsJsWhitespace(r[|r| - 1]))
    ensures exists i :: IsTrimmedAt(s, i, Trim(s))
  {
    var t := TrimStart(s);
    TrimmedSlice(s, t, TrimEnd(t));
  }

  /** `r` sits at position `i` of `s` with only whitespace before and after it. */
  predicate IsTrimmedAt(s: string, i: nat, r: string) {
    i + |r| <= |s| && s[i..i + |r|] == r && AllWhitespace(s[..i]) && AllWhitespace(s[i + |r|..])
  }

  lemma TrimmedSlice(s: string, t: string, r: string)
    requires |t| <= |s| && t == s[|s| - |t|..] && AllWhitespace(s[..|s| - |t|])
    requires |r| <= |t| && r == t[..|r|] && AllWhitespace(t[|r|..])
    ensures IsTrimmedAt(s, |s| - |t|, r)
  {
    var i := |s| - |t|;
    assert s[i..i + |r|] == r;
    assert s[i + |r|..] == t[|r|..];
  }

  /** Trimming the end of a concatenation: whitespace-only tails vanish, otherwise
      only the tail's own trailing whitespace goes. */
  lemma {:induction false} TrimEndAppend(a: string, b: string)
    ensures TrimEnd(a + b) == if AllWhitespace(b) then TrimEnd(a) else a + TrimEnd(b)
    decreases |b|
  {
    if b == [] {
      assert a + b == a;
    } else {
      var last := b[|b| - 1];
      var b' := b[..|b| - 1];
      assert (a + b)[..|a + b| - 1] == a + b';
      assert (a + b)[|a + b| - 1] == last;
      if IsJsWhitespace(last) {
        TrimEndAppend(a, b');
        assert AllWhitespace(b) == AllWhitespace(b') by {
          if AllWhitespace(b') {
            forall i | 0 <= i < |b| ensures IsJsWhitespace(b[i]) {
              if i < |b'| { assert b[i] == b'[i]; }
            }
          }
          if AllWhitespace(b) {
            forall i | 0 <= i < |b'| ensures IsJsWhitespace(b'[i]) { assert b'[i] == b[i]; }
          }
        }
      } else {
        assert !AllWhitespace(b);
      }
    }
  }

  /** Trim leaves a string that does not start with whitespace to TrimEnd. */
  lemma TrimNoLeadingSpace(s: string)
    requires s != [] && !IsJsWhitespace(s[0])
    ensures Trim(s) == TrimEnd(s)
  {
  }

  /** Trimming `p + " " + v`, for a word `p` that neither starts nor ends with
      whitespace: a blank `v` leaves `p` alone, any other `v` keeps the space
      and loses only its own trailing whitespace. Either way `p` opens the result. */
  lemma TrimAfterWord(p: string, v: string)
    requires p != [] && !IsJsWhitespace(p[0]) && !IsJsWhitespace(p[|p| - 1])
    ensures Trim(p + " " + v) == if AllWhitespace(v) then p else p + " " + TrimEnd(v)
    ensures |Trim(p + " " + v)| >= |p| && Trim(p + " " + v)[..|p|] == p
  {
    var w := p + " ";
    assert (w + v)[0] == p[0];
    TrimNoLeadingSpace(w + v);
    TrimEndAppend(w, v);
    TrimEndAppend(p, " ");
    assert TrimEnd(p) == p;
    WordOpens(p, TrimEnd(v));
    assert p[..|p|] == p;
  }

  lemma WordOpens(p: string, t: string)
    ensures |p + " " + t| >= |p| && (p + " " + t)[..|p|] == p
  {
    assert forall k :: 0 <= k < |p| ==> (p + " " + t)[k] == p[k];
  }
}
