/** Python built-ins the three trees lean on: str() of an int, ''.join, list.index, and
    the two exceptions the trees raise. */
module Common {

  /** The exceptions the trees raise: ValueError (a proof target not in level 0, or
      max() of an empty list) and IndexError (a full indexed tree, an empty table). */
  datatype Error = ValueError | IndexError

  datatype Option<T> = None | Some(value: T)

  /** The value of a call that returns something or raises. */
  datatype Result<T> = Ok(value: T) | Err(error: Error)

  /** The value of a call that returns nothing or raises. */
  datatype Outcome = Done | Raised(error: Error)

  /** The items the trees hash: Python ints and strs. */
  datatype Datum = IntVal(n: int) | StrVal(s: string)

  /** The decimal digits of a natural number, most significant first. */
  function NatStr(n: nat): (r: string)
    ensures |r| > 0
    ensures forall k :: 0 <= k < |r| ==> '0' <= r[k] <= '9'
  {
    var digit := (48 + n % 10) as char;
    if n < 10 then [digit] else NatStr(n / 10) + [digit]
  }

  /** str(n) for a Python int: an optional minus sign, then the decimal digits. */
  function IntStr(n: int): (r: string)
    ensures |r| > 0
    ensures n >= 0 <==> '0' <= r[0] <= '9'
  {
    if n < 0 then "-" + NatStr(-n) else NatStr(n)
  }

  /** str(obj) for an int or a str. */
  function Str(d: Datum): string
  {
    match d
    case IntVal(n) => IntStr(n)
    case StrVal(s) => s
  }

  /** ''.join(parts) */
  function Join(parts: seq<string>): (r: string)
    ensures |parts| == 1 ==> r == parts[0]
    ensures |parts| == 2 ==> r == parts[0] + parts[1]
  {
    if parts == [] then "" else parts[0] + Join(parts[1..])
  }

  /** list.index(x): the position of the first occurrence of x. */
  function FirstIndex<T(==)>(s: seq<T>, x: T): (r: nat)
    requires x in s
    ensures r < |s| && s[r] == x
    ensures forall k :: 0 <= k < r ==> s[k] != x
  {
    if s[0] == x then 0 else 1 + FirstIndex(s[1..], x)
  }

  /** 2 ** n */
  function Pow2(n: nat): (r: nat)
    ensures r >= 1
  {
    if n == 0 then 1 else 2 * Pow2(n - 1)
  }

  lemma ConcatAssoc<T>(a: seq<T>, b: seq<T>, c: seq<T>)
    ensures (a + b) + c == a + (b + c)
  {
  }

  /** [x] * n */
  function Repeat<T>(x: T, n: nat): (r: seq<T>)
    ensures |r| == n && forall k :: 0 <= k < n ==> r[k] == x
  {
    seq(n, _ => x)
  }
}
