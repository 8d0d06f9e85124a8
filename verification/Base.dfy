/** Small shared vocabulary: SQL-nullable columns, ASCII case folding, bytes. */
module Base {

  type byte = b: int | 0 <= b < 256

  type Bytes = seq<byte>

  function Max(a: int, b: int): int {
    if a < b then b else a
  }

  function Min(a: int, b: int): int {
    if a < b then a else b
  }

  /** A nullable column, or an optional field of a request body. */
  datatype Option<+T> = None | Some(value: T) {

    /** SQL `COALESCE(this, other)`, JavaScript `this ?? other`. */
    function Or(other: Option<T>): Option<T> {
      if None? then other else this
    }

    function GetOr(default: T): T {
      if None? then default else value
    }
  }

  function LowerChar(c: char): char {
    if 'A' <= c <= 'Z' then (c as int + 32) as char else c
  }

  /** `toLowerCase` on the hexadecimal identifiers the server stores. */
  function Lower(s: string): (r: string)
    ensures |r| == |s|
  {
    seq(|s|, i requires 0 <= i < |s| => LowerChar(s[i]))
  }

  lemma LowerIdempotent(s: string)
    ensures Lower(Lower(s)) == Lower(s)
  {
  }

  function UpperChar(c: char): char {
    if 'a' <= c <= 'z' then (c as int - 32) as char else c
  }

  /** `toUpperCase`, on ASCII letters. */
  function Upper(s: string): (r: string)
    ensures |r| == |s|
  {
    seq(|s|, i requires 0 <= i < |s| => UpperChar(s[i]))
  }

  /** `map.get(key) ?? null`. */
  function Get<K, V>(m: map<K, V>, k: K): Option<V> {
    if k in m then Some(m[k]) else None
  }
}
