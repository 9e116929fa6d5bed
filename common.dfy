/** Values shared by the API and the pages: optional values, JSON scalars as
    they arrive in a request body, SQL cells as they are stored, JavaScript
    falsiness and the `value || null` coercion, and decimal rendering of ids. */
module Common {

  datatype Option<+T> = None | Some(value: T)

  /** A JSON value of a request body. Numbers are modelled as integers. */
  datatype Json = JStr(s: string) | JNum(n: int) | JBool(b: bool) | JNull | JOther

  /** A stored SQL cell. */
  datatype Cell = Null | Text(s: string) | Num(n: int)

  /** The data columns of a row, by column name. */
  type Columns = map<string, Cell>

  /** What a route handler answers. */
  datatype Response<T> =
    | Ok(value: T)         // 200 with one record
    | Created(value: T)    // 201 with the record just inserted
    | Rows(items: seq<T>)  // 200 with a list of records
    | NoPlan               // 200 with `null`
    | Success              // 200 with `{ success: true }`
    | NotFound             // 404
    | Invalid              // the request body failed its schema
    | ServerError          // the statement or the response schema failed

  datatype Verb = Get | Post | Put | Delete

  /** A `fetch` a page issues: HTTP method, URL and JSON body. */
  datatype Request = Request(verb: Verb, url: string, body: map<string, Json>)

  /** JavaScript falsiness of a JSON value: "", 0, false and null. */
  predicate Falsy(j: Json)
  {
    match j
    case JStr(s) => s == ""
    case JNum(n) => n == 0
    case JBool(b) => !b
    case JNull => true
    case JOther => false
  }

  /** The cell a JSON scalar is bound as. */
  function ToCell(j: Json): Cell
  {
    match j
    case JStr(s) => Text(s)
    case JNum(n) => Num(n)
    case JBool(b) => Num(if b then 1 else 0)
    case _ => Null
  }

  /** `value || null`: a falsy value binds null, any other value binds itself. */
  function ValueOrNull(j: Json): (c: Cell)
    ensures c == Null <==> Falsy(j) || j.JOther?
    ensures j.JStr? && j.s != "" ==> c == Text(j.s)
  {
    if Falsy(j) then Null else ToCell(j)
  }

  /** `data.key || null`: a missing or falsy value binds null. */
  function OrNull(data: map<string, Json>, key: string): Cell
  {
    if key in data then ValueOrNull(data[key]) else Null
  }

  /** `data.key` bound as it is (absent binds null). */
  function Raw(data: map<string, Json>, key: string): Cell
  {
    if key in data then ToCell(data[key]) else Null
  }

  /** `data.key || fallback` for a string fallback. */
  function OrDefault(data: map<string, Json>, key: string, fallback: string): (c: Cell)
    ensures key !in data || Falsy(data[key]) ==> c == Text(fallback)
    ensures key in data && data[key].JStr? && data[key].s != "" ==> c == Text(data[key].s)
  {
    if key in data && !Falsy(data[key]) then ToCell(data[key]) else Text(fallback)
  }

  /** A nullable text column read back as JavaScript does `x || ""`. */
  function TextOrEmpty(c: Cell): string
  {
    match c
    case Text(s) => s
    case _ => ""
  }

  predicate IsDigit(ch: char) { '0' <= ch <= '9' }

  /** Decimal rendering of a non-negative integer, as `String(n)` gives it. */
  function NatToString(n: nat): (s: string)
    ensures |s| >= 1
    ensures forall i :: 0 <= i < |s| ==> IsDigit(s[i])
    decreases n
  {
    if n < 10 then [DigitChar(n)] else NatToString(n / 10) + [DigitChar(n % 10)]
  }

  function DigitChar(d: nat): (ch: char)
    requires d < 10
    ensures IsDigit(ch) && DigitValue(ch) == d
  {
    ('0' as int + d) as char
  }

  function DigitValue(ch: char): (d: nat)
    requires IsDigit(ch)
    ensures d < 10
  {
    ch as int - '0' as int
  }

  /** Length of the leading run of decimal digits of s. */
  function DigitRun(s: string): (k: nat)
    ensures k <= |s|
    ensures forall i :: 0 <= i < k ==> IsDigit(s[i])
    ensures k < |s| ==> !IsDigit(s[k])
  {
    if |s| == 0 || !IsDigit(s[0]) then 0 else 1 + DigitRun(s[1..])
  }

  /** Value of a non-empty string of decimal digits. */
  function DigitsValue(s: string): nat
    requires forall i :: 0 <= i < |s| ==> IsDigit(s[i])
  {
    if |s| == 0 then 0 else DigitsValue(s[..|s| - 1]) * 10 + DigitValue(s[|s| - 1])
  }

  predicate IsHexDigit(ch: char)
  {
    IsDigit(ch) || 'a' <= ch <= 'f' || 'A' <= ch <= 'F'
  }

  function HexDigitValue(ch: char): (d: nat)
    requires IsHexDigit(ch)
    ensures d < 16
  {
    if IsDigit(ch) then DigitValue(ch)
    else if 'a' <= ch <= 'f' then ch as int - 'a' as int + 10
    else ch as int - 'A' as int + 10
  }

  /** Length of the leading run of hexadecimal digits of s. */
  function HexRun(s: string): (k: nat)
    ensures k <= |s|
    ensures forall i :: 0 <= i < k ==> IsHexDigit(s[i])
    ensures k < |s| ==> !IsHexDigit(s[k])
  {
    if |s| == 0 || !IsHexDigit(s[0]) then 0 else 1 + HexRun(s[1..])
  }

  /** Value of a string of hexadecimal digits. */
  function HexValue(s: string): nat
    requires forall i :: 0 <= i < |s| ==> IsHexDigit(s[i])
  {
    if |s| == 0 then 0 else HexValue(s[..|s| - 1]) * 16 + HexDigitValue(s[|s| - 1])
  }

  /** Text that `parseInt` without a radix reads in base 16. */
  predicate HexPrefixed(s: string)
  {
    |s| >= 2 && s[0] == '0' && (s[1] == 'x' || s[1] == 'X')
  }

  /** `parseInt(s)` for strings without leading blanks or sign: after a "0x" or
      "0X" prefix the value of the hexadecimal digits that follow, otherwise
      the value of the leading decimal digits; None (NaN) when there are no
      such digits. */
  function ParseInt(s: string): (r: Option<nat>)
    ensures r.None? <==> (|s| == 0 || !IsDigit(s[0]) || (HexPrefixed(s) && (|s| == 2 || !IsHexDigit(s[2]))))
  {
    if HexPrefixed(s) then
      var k := HexRun(s[2..]);
      if k == 0 then None else Some(HexValue(s[2..][..k]))
    else
      var k := DigitRun(s);
      if k == 0 then None else Some(DigitsValue(s[..k]))
  }

  /** Decimal digits stop at the first other character, and "0x" switches to hex. */
  lemma ParseIntExamples()
    ensures ParseInt("12ab") == Some(12)
    ensures ParseInt("0x1f") == Some(31) && ParseInt("0X1F") == Some(31)
    ensures ParseInt("0x") == None && ParseInt("0xg") == None
    ensures ParseInt("x1") == None && ParseInt("") == None
  {
    assert DigitRun("12ab") == 2;
    assert "12ab"[..2] == "12" && "12"[..1] == "1" && "1"[..0] == "";
    assert DigitsValue("12") == 12;
    assert HexRun("1f") == 2 && HexRun("1F") == 2;
    assert "0x1f"[2..] == "1f" && "1f"[..2] == "1f" && "1f"[..1] == "1" && "1"[..0] == "";
    assert "0X1F"[2..] == "1F" && "1F"[..2] == "1F" && "1F"[..1] == "1";
    assert HexValue("1f") == 31 && HexValue("1F") == 31;
  }

  lemma {:induction false} DigitsValueOfNatToString(n: nat)
    ensures DigitsValue(NatToString(n)) == n
    decreases n
  {
    var s := NatToString(n);
    if n < 10 {
      assert s == [DigitChar(n)];
      assert s[..0] == [];
    } else {
      DigitsValueOfNatToString(n / 10);
      assert s[..|s| - 1] == NatToString(n / 10);
    }
  }

  /** parseInt is a left inverse of decimal rendering. */
  lemma ParseIntOfNatToString(n: nat)
    ensures ParseInt(NatToString(n)) == Some(n)
  {
    var s := NatToString(n);
    assert !HexPrefixed(s) by { if |s| >= 2 { assert IsDigit(s[1]); } }
    assert DigitRun(s) == |s| by { DigitRunAll(s); }
    assert s[..|s|] == s;
    DigitsValueOfNatToString(n);
  }

  lemma {:induction false} DigitRunAll(s: string)
    requires forall i :: 0 <= i < |s| ==> IsDigit(s[i])
    ensures DigitRun(s) == |s|
  {
    if |s| > 0 {
      DigitRunAll(s[1..]);
    }
  }
}
