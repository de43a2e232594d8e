/** JavaScript values as they appear in this code base: parsed JSON, request
    bodies and database `json` columns.  A missing property (`undefined`) is
    `None` of an `Option<Json>`; numbers are integers.

    The module also holds the string operations of the JavaScript standard
    library that the modelled code relies on (`trim`, `indexOf`,
    `lastIndexOf`, `substring`, `includes`, `String(x)`, `toLowerCase`). */
module Json {
  import opened Wrappers

  datatype Json =
    | Null
    | Bool(b: bool)
    | Num(n: int)
    | Str(s: string)
    | Arr(items: seq<Json>)
    | Obj(fields: map<string, Json>)

  /** JavaScript truthiness: `null`, `false`, `0` and `""` are falsy. */
  predicate Truthy(j: Json) {
    match j
    case Null => false
    case Bool(b) => b
    case Num(n) => n != 0
    case Str(s) => s != ""
    case Arr(_) => true
    case Obj(_) => true
  }

  /** Truthiness of a property read, where `undefined` is falsy. */
  predicate Present(v: Option<Json>) {
    v.Some? && Truthy(v.value)
  }

  /** `typeof v === "object" && v !== null`. */
  predicate IsObjectLike(j: Json) {
    j.Arr? || j.Obj?
  }

  /** Reading property `k` of a non-null value: only objects carry named
      properties here (a read on `null` is a TypeError, handled by callers). */
  function Get(j: Json, k: string): (r: Option<Json>)
    ensures r.Some? <==> j.Obj? && k in j.fields
    ensures r.Some? ==> r.value == j.fields[k]
  {
    if j.Obj? && k in j.fields then Some(j.fields[k]) else None
  }

  /** `v?.k`: optional chaining over an optional value. */
  function GetOpt(v: Option<Json>, k: string): Option<Json> {
    if v.Some? then Get(v.value, k) else None
  }

  /** `undefined` or `null`: reading a property of it is a TypeError. */
  predicate Nullish(v: Option<Json>) {
    v.None? || v.value == Null
  }

  /** Assigning `j.k = v` where `j` is an object. */
  function Set(j: Json, k: string, v: Json): (r: Json)
    requires j.Obj?
    ensures r.Obj? && r.fields == j.fields[k := v]
  {
    Obj(j.fields[k := v])
  }

  /** `Object.keys(j).length` for a truthy value. */
  function KeyCount(j: Json): nat {
    match j
    case Obj(m) => |m|
    case Arr(items) => |items|
    case Str(s) => |s|
    case _ => 0
  }

  /** Number of truthy entries of a sequence. */
  function CountTruthy(items: seq<Json>): (r: nat)
    ensures r <= |items|
  {
    if items == [] then 0
    else (if Truthy(items[0]) then 1 else 0) + CountTruthy(items[1..])
  }

  /** `Object.values(j).filter(Boolean).length`.  The values of a string are
      its one-character strings, all truthy. */
  function TruthyValueCount(j: Json): (r: nat)
    ensures r <= KeyCount(j)
  {
    match j
    case Obj(m) =>
      var ks := set k | k in m && Truthy(m[k]);
      assert ks <= m.Keys;
      CardinalityOfSubset(ks, m.Keys);
      |ks|
    case Arr(items) => CountTruthy(items)
    case Str(s) => |s|
    case _ => 0
  }

  lemma CardinalityOfSubset<T>(a: set<T>, b: set<T>)
    requires a <= b
    ensures |a| <= |b|
  {
    assert b == a + (b - a);
  }

  /** `j.length` where it is defined: arrays and strings. */
  function LengthOf(j: Json): (r: Option<nat>)
    ensures r.Some? <==> j.Arr? || j.Str?
  {
    match j
    case Arr(items) => Some(|items|)
    case Str(s) => Some(|s|)
    case _ => None
  }

  // ---------------------------------------------------------------------
  // Decimal printing and String(x)

  function DigitChar(d: nat): char
    requires d < 10
  {
    "0123456789"[d]
  }

  /** Decimal representation of a natural number, as `String(n)` prints it. */
  function NatStr(n: nat): (r: string)
    ensures |r| >= 1
    ensures forall k :: 0 <= k < |r| ==> '0' <= r[k] <= '9'
    decreases n
  {
    if n < 10 then [DigitChar(n)] else NatStr(n / 10) + [DigitChar(n % 10)]
  }

  /** The value of a string of decimal digits: the inverse of `NatStr`. */
  function ParseNat(s: string): nat
    requires forall k :: 0 <= k < |s| ==> '0' <= s[k] <= '9'
  {
    if s == [] then 0 else ParseNat(s[..|s| - 1]) * 10 + (s[|s| - 1] as int - '0' as int)
  }

  lemma DigitCharValue(d: nat)
    requires d < 10
    ensures DigitChar(d) as int - '0' as int == d
  {
  }

  lemma {:induction false} NatStrRoundTrip(n: nat)
    ensures ParseNat(NatStr(n)) == n
    decreases n
  {
    if n < 10 {
      DigitCharValue(n);
      assert NatStr(n)[..0] == [];
    } else {
      NatStrRoundTrip(n / 10);
      DigitCharValue(n % 10);
      var s := NatStr(n);
      assert s[..|s| - 1] == NatStr(n / 10);
    }
  }

  function IntStr(n: int): string {
    if n < 0 then "-" + NatStr(-n) else NatStr(n)
  }

  function Join(parts: seq<string>, sep: string): string {
    if |parts| == 0 then ""
    else if |parts| == 1 then parts[0]
    else parts[0] + sep + Join(parts[1..], sep)
  }

  /** `String(j)`, also what a template literal and `+` on strings produce.
      Array elements that are `null` print as the empty string. */
  function JsString(j: Json): string {
    match j
    case Null => "null"
    case Bool(b) => if b then "true" else "false"
    case Num(n) => IntStr(n)
    case Str(s) => s
    case Arr(items) =>
      Join(seq(|items|, i requires 0 <= i < |items| => if items[i] == Null then "" else JsString(items[i])), ",")
    case Obj(_) => "[object Object]"
  }

  /** A template literal `${v}` over a property read: `undefined` prints as
      "undefined". */
  function TemplateStr(v: Option<Json>): string {
    if v.Some? then JsString(v.value) else "undefined"
  }

  // ---------------------------------------------------------------------
  // Strings

  predicate HasAt(s: string, p: nat, lit: string) {
    p + |lit| <= |s| && s[p..p + |lit|] == lit
  }

  /** `HasAt` from a character-by-character comparison. */
  lemma HasAtByChars(s: string, p: nat, lit: string)
    requires p + |lit| <= |s| && forall k :: 0 <= k < |lit| ==> s[p + k] == lit[k]
    ensures HasAt(s, p, lit)
  {
    assert s[p..p + |lit|] == lit;
  }

  /** A literal cannot occur where one of its characters does not. */
  lemma NotHasAt(s: string, p: nat, lit: string, j: nat)
    requires j < |lit| && (p + j >= |s| || s[p + j] != lit[j])
    ensures !HasAt(s, p, lit)
  {
    if p + |lit| <= |s| {
      assert s[p..p + |lit|][j] == s[p + j];
    }
  }

  predicate StartsWith(s: string, lit: string) {
    HasAt(s, 0, lit)
  }

  /** `s.includes(sub)`. */
  predicate Contains(s: string, sub: string) {
    exists p :: 0 <= p <= |s| - |sub| && HasAt(s, p, sub)
  }

  /** `s.indexOf(c)`: the first index of `c`, or -1. */
  function IndexOf(s: string, c: char): (r: int)
    ensures -1 <= r < |s|
    ensures r == -1 <==> c !in s
    ensures r >= 0 ==> s[r] == c && c !in s[..r]
    ensures r == -1 ==> forall m :: 0 <= m < |s| ==> s[m] != c
    ensures r >= 0 ==> forall m :: 0 <= m < r ==> s[m] != c
  {
    if |s| == 0 then -1
    else if s[0] == c then 0
    else
      var k := IndexOf(s[1..], c);
      assert s[1..][..if k < 0 then 0 else k] == s[1..if k < 0 then 1 else k + 1];
      if k == -1 then -1 else k + 1
  }

  /** `s.lastIndexOf(c)`: the last index of `c`, or -1. */
  function LastIndexOf(s: string, c: char): (r: int)
    ensures -1 <= r < |s|
    ensures r == -1 <==> c !in s
    ensures r >= 0 ==> s[r] == c && c !in s[r + 1..]
    ensures r == -1 ==> forall m :: 0 <= m < |s| ==> s[m] != c
    ensures r >= 0 ==> forall m :: r < m < |s| ==> s[m] != c
  {
    LastIndexBelow(s, c, |s|)
  }

  /** The last index of `c` below `n`, or -1. */
  function LastIndexBelow(s: string, c: char, n: nat): (r: int)
    requires n <= |s|
    ensures -1 <= r < n
    ensures r == -1 <==> c !in s[..n]
    ensures r >= 0 ==> s[r] == c && forall k :: r < k < n ==> s[k] != c
  {
    if n == 0 then -1
    else if s[n - 1] == c then n - 1
    else
      assert s[..n] == s[..n - 1] + [s[n - 1]];
      LastIndexBelow(s, c, n - 1)
  }

  /** `s.substring(a, b)` for indices already in range: the arguments are
      swapped when `a > b`. */
  function JsSubstring(s: string, a: nat, b: nat): (r: string)
    requires a <= |s| && b <= |s|
    ensures a <= b ==> r == s[a..b]
    ensures b < a ==> r == s[b..a]
  {
    if a <= b then s[a..b] else s[b..a]
  }

  /** The characters JavaScript's `\s` and `String.prototype.trim` treat as
      white space: WhiteSpace and LineTerminator of ECMAScript. */
  predicate IsJsSpace(c: char) {
    c == '\t' || c == '\n' || c == '\U{B}' || c == '\U{C}' || c == '\r' || c == ' '
    || c == '\U{A0}' || c == '\U{1680}' || ('\U{2000}' <= c <= '\U{200A}')
    || c == '\U{2028}' || c == '\U{2029}' || c == '\U{202F}' || c == '\U{205F}'
    || c == '\U{3000}' || c == '\U{FEFF}'
  }

  function TrimStart(s: string): (r: string)
    ensures |r| <= |s| && r == s[|s| - |r|..]
    ensures forall k :: 0 <= k < |s| - |r| ==> IsJsSpace(s[k])
    ensures r == [] || !IsJsSpace(r[0])
  {
    if s != [] && IsJsSpace(s[0]) then
      TrimStart(s[1..])
    else s
  }

  function TrimEnd(s: string): (r: string)
    ensures |r| <= |s| && r == s[..|r|]
    ensures forall k :: |r| <= k < |s| ==> IsJsSpace(s[k])
    ensures r == [] || !IsJsSpace(r[|r| - 1])
  {
    if s != [] && IsJsSpace(s[|s| - 1]) then
      TrimEnd(s[..|s| - 1])
    else s
  }

  /** `s.trim()`. */
  function Trim(s: string): string {
    TrimEnd(TrimStart(s))
  }

  /** `s.replace(/\s+/g, "")`. */
  function RemoveSpaces(s: string): (r: string)
    ensures forall k :: 0 <= k < |r| ==> !IsJsSpace(r[k])
    ensures |r| <= |s|
  {
    if s == [] then []
    else if IsJsSpace(s[0]) then RemoveSpaces(s[1..])
    else [s[0]] + RemoveSpaces(s[1..])
  }

  lemma RemoveSpacesNoSpace(s: string)
    requires forall k :: 0 <= k < |s| ==> !IsJsSpace(s[k])
    ensures RemoveSpaces(s) == s
  {
    if s != [] {
      RemoveSpacesNoSpace(s[1..]);
    }
  }

  /** The character class `[A-Za-z0-9+/=\s]` of the base64 heuristics. */
  predicate IsBase64OrSpace(c: char) {
    ('A' <= c <= 'Z') || ('a' <= c <= 'z') || ('0' <= c <= '9') || c == '+' || c == '/' || c == '=' || IsJsSpace(c)
  }

  /** `/^[A-Za-z0-9+/=\s]+$/.test(s)`. */
  predicate Base64Like(s: string) {
    |s| > 0 && forall k :: 0 <= k < |s| ==> IsBase64OrSpace(s[k])
  }

  /** ASCII lower-casing, as `toLowerCase` acts on ASCII text. */
  function LowerChar(c: char): char {
    if 'A' <= c <= 'Z' then (c as int + 32) as char else c
  }

  function ToLower(s: string): (r: string)
    ensures |r| == |s|
    ensures forall k :: 0 <= k < |s| ==> r[k] == LowerChar(s[k])
  {
    if s == [] then [] else [LowerChar(s[0])] + ToLower(s[1..])
  }

  /** A case-insensitive test for `/^https?:\/\//i`. */
  predicate IsHttpUrl(s: string) {
    StartsWith(ToLower(s), "http://") || StartsWith(ToLower(s), "https://")
  }
}
