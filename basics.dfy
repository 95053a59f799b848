/** Small shared vocabulary: optional values, HTTP-style replies, and the
    string and number helpers the handlers rely on (JavaScript's
    `startsWith`, `Number(...)` id parsing, decimal rendering). */
module Basics {

  datatype Option<+T> = None | Some(value: T)

  /** What a request handler sends back: a success payload, or an error
      status code with its error message. */
  datatype Reply<+T> = Ok(value: T) | Fail(status: int, message: string)

  /** A value thrown by a callee: an `Error` object with its message, or
      any other value, whose `String(...)` rendering is `text`. */
  datatype Thrown = ErrorObject(message: string) | OtherValue(text: string)

  /** A call into code outside the model (storage, database, browser): it
      either returns a value or throws. */
  datatype Outcome<+T> = Returns(value: T) | Throws(error: Thrown)

  /** `err instanceof Error ? err.message : String(err)` */
  function ErrorText(e: Thrown): string {
    match e
    case ErrorObject(m) => m
    case OtherValue(t) => t
  }

  /** `s.startsWith(p)` */
  predicate StartsWith(s: string, p: string) {
    |p| <= |s| && s[..|p|] == p
  }

  /** The handlers parse ids with `Number(x)` and reject them with
      `!id || Number.isNaN(id)`: `None` stands for NaN, and 0 is falsy. */
  predicate ValidId(id: Option<int>) {
    id.Some? && id.value != 0
  }

  /** JavaScript's `a || b` on strings: the empty string is falsy. */
  function OrElse(a: string, b: string): (r: string)
    ensures a != "" ==> r == a
    ensures a == "" ==> r == b
  {
    if a != "" then a else b
  }

  predicate IsDigit(c: char) {
    '0' <= c <= '9'
  }

  function DigitChar(d: nat): (c: char)
    requires d < 10
    ensures IsDigit(c)
  {
    "0123456789"[d]
  }

  /** Decimal rendering of a natural number, as `String(n)` does it. */
  function NatToString(n: nat): (s: string)
    ensures |s| >= 1
    ensures forall i :: 0 <= i < |s| ==> IsDigit(s[i])
    decreases n
  {
    if n < 10 then [DigitChar(n)] else NatToString(n / 10) + [DigitChar(n % 10)]
  }

  /** Decimal rendering of an integer (`String(i)`), with a leading '-'
      for negatives. */
  function IntToString(i: int): (s: string)
    ensures |s| >= 1
    ensures forall k :: 0 <= k < |s| ==> IsDigit(s[k]) || s[k] == '-'
  {
    if i < 0 then "-" + NatToString(-i) else NatToString(i)
  }

  /** `SELECT ... WHERE <column> = ?` over a table's rows in insertion
      order: the position of the last row whose column `key` holds `k`. */
  function IndexOfKey<T, K(==)>(rows: seq<T>, key: T -> K, k: K): (r: Option<nat>)
    ensures r.Some? ==> r.value < |rows| && key(rows[r.value]) == k
    ensures r.None? <==> forall j :: 0 <= j < |rows| ==> key(rows[j]) != k
  {
    if rows == [] then None
    else if key(rows[|rows| - 1]) == k then Some(|rows| - 1)
    else IndexOfKey(rows[..|rows| - 1], key, k)
  }

  /** Lookups only look at the key column: tables with the same keys at
      the same positions find the same position. */
  lemma {:induction false} IndexOfKeySameKeys<T, K>(rows: seq<T>, rows': seq<T>, key: T -> K, k: K)
    requires |rows| == |rows'|
    requires forall j :: 0 <= j < |rows| ==> key(rows[j]) == key(rows'[j])
    ensures IndexOfKey(rows, key, k) == IndexOfKey(rows', key, k)
    decreases |rows|
  {
    if rows != [] {
      IndexOfKeySameKeys(rows[..|rows| - 1], rows'[..|rows| - 1], key, k);
    }
  }

  /** `DELETE ... WHERE id = ?` on one row: the rows without row `i`, the
      others in their order. */
  function RemoveAt<T>(rows: seq<T>, i: nat): (r: seq<T>)
    requires i < |rows|
    ensures |r| == |rows| - 1
    ensures forall j :: 0 <= j < |r| ==> r[j] == rows[if j < i then j else j + 1]
  {
    rows[..i] + rows[i + 1..]
  }
}
